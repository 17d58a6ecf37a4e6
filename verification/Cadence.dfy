/** The resend throttle: which alerts are posted, and how long each firing one is held for. */
module Cadences {
  import opened Options
  import opened AlertModel

  type Sent = map<Fingerprint, Time>

  /** The period an alert is really re-sent on, times the tolerance. */
  function Validity(interval: Time, tolerance: int, evalInterval: Time): Time {
    tolerance * (if evalInterval > interval then evalInterval else interval)
  }

  /** When the alert entered the phase it is in. */
  function Since(a: Alert): Time {
    if a.phase == Firing then a.firedAt else a.resolvedAt
  }

  predicate DueAfter(sent: Option<Time>, interval: Time, now: Time, since: Time) {
    sent.None? || sent.value < since || now - sent.value >= interval
  }

  predicate Selected(sent: Sent, interval: Time, now: Time, a: Alert) {
    a.phase != Pending && DueAfter(Get(sent, a.fingerprint), interval, now, Since(a))
  }

  function Stamp(a: Alert, until: Time): Alert {
    if a.phase == Firing then a.(validUntil := until) else a
  }

  /** The alerts worth posting, in the order they came. */
  function Selection(sent: Sent, interval: Time, now: Time, until: Time, alerts: seq<Alert>): seq<Alert> {
    if alerts == [] then []
    else
      var rest := Selection(sent, interval, now, until, alerts[..|alerts| - 1]);
      var a := alerts[|alerts| - 1];
      if Selected(sent, interval, now, a) then rest + [Stamp(a, until)] else rest
  }

  /** Every posted alert is marked as sent now. */
  function Recorded(sent: Sent, now: Time, posted: seq<Alert>): Sent {
    if posted == [] then sent
    else
      var rest := Recorded(sent, now, posted[..|posted| - 1]);
      var a := posted[|posted| - 1];
      if a.phase == Pending then rest else rest[a.fingerprint := now]
  }

  function Pruned(sent: Sent, now: Time, cutoff: Time): Sent {
    map fp | fp in sent && now - sent[fp] <= cutoff :: sent[fp]
  }

  /** One call of Send, and whether the POST went through. */
  datatype Call = Call(now: Time, evalInterval: Time, alerts: seq<Alert>, delivered: bool)

  datatype Throttle = Throttle(sent: Sent, lastSwept: Option<Time>)

  function Chosen(t: Throttle, interval: Time, tolerance: int, c: Call): seq<Alert> {
    Selection(t.sent, interval, c.now, c.now + Validity(interval, tolerance, c.evalInterval), c.alerts)
  }

  function Sweep(t: Throttle, interval: Time, tolerance: int, now: Time, evalInterval: Time): Throttle {
    if t.lastSwept.Some? && now - t.lastSwept.value < interval then t
    else Throttle(Pruned(t.sent, now, Validity(interval, tolerance, evalInterval) + interval), Some(now))
  }

  /** The throttle after a call; `pruning` says whether it sweeps at all. */
  function After(t: Throttle, interval: Time, tolerance: int, c: Call, pruning: bool): Throttle {
    var chosen := Chosen(t, interval, tolerance, c);
    if chosen == [] || !c.delivered then t
    else
      var recorded := t.(sent := Recorded(t.sent, c.now, chosen));
      if pruning then Sweep(recorded, interval, tolerance, c.now, c.evalInterval) else recorded
  }

  class Cadence {
    const interval: Time
    const tolerance: int
    var lastSent: Sent

    /** None is the zero time, which is longer ago than any interval. */
    var lastSwept: Option<Time>

    constructor (interval: Time, tolerance: int)
      ensures this.interval == interval && this.tolerance == tolerance
      ensures State() == Throttle(map[], None)
    {
      this.interval, this.tolerance := interval, tolerance;
      lastSent, lastSwept := map[], None;
    }

    function State(): Throttle
      reads this
    {
      Throttle(lastSent, lastSwept)
    }

    /** Posts what is due. `accepts` stands for the sender: whether it takes the batch. */
    method Send(now: Time, evalInterval: Time, alerts: seq<Alert>, accepts: seq<Alert> -> bool)
      returns (posted: seq<Alert>, ok: bool)
      modifies this
      ensures posted == Selection(old(lastSent), interval, now, now + Validity(interval, tolerance, evalInterval), alerts)
      ensures ok <==> posted == [] || accepts(posted)
      ensures State() == After(old(State()), interval, tolerance, Call(now, evalInterval, alerts, accepts(posted)), true)
    {
      posted := DueAt(now, evalInterval, alerts);
      if posted == [] {
        return posted, true;
      }
      if !accepts(posted) {
        return posted, false;
      }
      Record(now, evalInterval, posted);
      ok := true;
    }

    method DueAt(now: Time, evalInterval: Time, alerts: seq<Alert>) returns (due: seq<Alert>)
      ensures due == Selection(lastSent, interval, now, now + Validity(interval, tolerance, evalInterval), alerts)
    {
      var validity := Validity(interval, tolerance, evalInterval);
      due := [];
      for i := 0 to |alerts|
        invariant due == Selection(lastSent, interval, now, now + validity, alerts[..i])
      {
        assert alerts[..i + 1][..i] == alerts[..i];
        var a := alerts[i];
        match a.phase {
          case Pending =>
            continue;
          case Firing =>
            if !Due(now, a, a.firedAt) {
              continue;
            }
            a := a.(validUntil := now + validity);
          case Resolved =>
            if !Due(now, a, a.resolvedAt) {
              continue;
            }
        }
        due := due + [a];
      }
      assert alerts[..|alerts|] == alerts;
    }

    predicate Due(now: Time, a: Alert, since: Time)
      reads this
    {
      DueAfter(Get(lastSent, a.fingerprint), interval, now, since)
    }

    method Record(now: Time, evalInterval: Time, due: seq<Alert>)
      modifies this
      ensures State() == Sweep(Throttle(Recorded(old(lastSent), now, due), old(lastSwept)), interval, tolerance, now, evalInterval)
    {
      for i := 0 to |due|
        invariant lastSwept == old(lastSwept)
        invariant lastSent == Recorded(old(lastSent), now, due[..i])
      {
        assert due[..i + 1][..i] == due[..i];
        if due[i].phase == Firing || due[i].phase == Resolved {
          lastSent := lastSent[due[i].fingerprint := now];
        }
      }
      assert due[..|due|] == due;
      Prune(now, evalInterval);
    }

    method Prune(now: Time, evalInterval: Time)
      modifies this
      ensures State() == Sweep(old(State()), interval, tolerance, now, evalInterval)
    {
      if lastSwept.Some? && now - lastSwept.value < interval {
        return;
      }
      lastSwept := Some(now);
      var cutoff := Validity(interval, tolerance, evalInterval) + interval;
      var todo := lastSent.Keys;
      while todo != {}
        invariant lastSwept == Some(now)
        invariant todo <= lastSent.Keys
        invariant lastSent == map fp | fp in old(lastSent) && (fp in todo || now - old(lastSent)[fp] <= cutoff) :: old(lastSent)[fp]
        decreases |todo|
      {
        var fp := Pick(todo);
        if now - lastSent[fp] > cutoff {
          lastSent := lastSent - {fp};
        }
        todo := todo - {fp};
      }
    }
  }

  /** Exactly the alerts that are due are selected, and the only thing added is the expiry. */
  lemma {:induction false} SelectionExactly(sent: Sent, interval: Time, now: Time, until: Time, alerts: seq<Alert>, a: Alert)
    ensures a in Selection(sent, interval, now, until, alerts)
       <==> exists i :: 0 <= i < |alerts| && Selected(sent, interval, now, alerts[i]) && a == Stamp(alerts[i], until)
  {
    if alerts != [] {
      var n := |alerts| - 1;
      var rest := alerts[..n];
      SelectionExactly(sent, interval, now, until, rest, a);
      if a in Selection(sent, interval, now, until, rest) {
        var i :| 0 <= i < n && Selected(sent, interval, now, rest[i]) && a == Stamp(rest[i], until);
        assert alerts[i] == rest[i];
      }
      if i :| 0 <= i < |alerts| && Selected(sent, interval, now, alerts[i]) && a == Stamp(alerts[i], until) {
        if i < n {
          assert rest[i] == alerts[i];
        }
      }
    }
  }

  /** Worth posting: firing or resolved, and nothing sent since it became so, or not for an interval. */
  predicate WorthPosting(sent: Sent, interval: Time, now: Time, a: Alert) {
    && (a.phase == Firing || a.phase == Resolved)
    && (a.fingerprint !in sent
        || sent[a.fingerprint] < (if a.phase == Firing then a.firedAt else a.resolvedAt)
        || now - sent[a.fingerprint] >= interval)
  }

  /** `due` is the alerts at these places of the list, and they are all the ones worth posting. Each
      is as it was, except that a firing one is given its expiry. */
  ghost predicate Picks(due: seq<Alert>, places: seq<nat>, sent: Sent, interval: Time, now: Time, until: Time, alerts: seq<Alert>) {
    && |due| == |places|
    && (forall j, k :: 0 <= j < k < |places| ==> places[j] < places[k])
    && (forall k :: 0 <= k < |places| ==> places[k] < |alerts| && WorthPosting(sent, interval, now, alerts[places[k]]))
    && (forall k :: 0 <= k < |places| && places[k] < |alerts| ==>
          due[k] == if alerts[places[k]].phase == Firing then alerts[places[k]].(validUntil := until) else alerts[places[k]])
    && (forall i :: 0 <= i < |alerts| && WorthPosting(sent, interval, now, alerts[i]) ==> i in places)
  }

  /** Every alert worth posting is selected once, in the order they came. */
  lemma {:induction false} SelectedInOrder(sent: Sent, interval: Time, now: Time, until: Time, alerts: seq<Alert>) returns (places: seq<nat>)
    ensures Picks(Selection(sent, interval, now, until, alerts), places, sent, interval, now, until, alerts)
  {
    places := [];
    if alerts != [] {
      var n := |alerts| - 1;
      var before := SelectedInOrder(sent, interval, now, until, alerts[..n]);
      places := before;
      if Selected(sent, interval, now, alerts[n]) {
        places := before + [n];
        PicksOne(Selection(sent, interval, now, until, alerts[..n]), before, sent, interval, now, until, alerts);
      } else {
        PicksNone(Selection(sent, interval, now, until, alerts[..n]), before, sent, interval, now, until, alerts);
      }
    }
  }

  lemma PicksOne(due: seq<Alert>, places: seq<nat>, sent: Sent, interval: Time, now: Time, until: Time, alerts: seq<Alert>)
    requires alerts != [] && Picks(due, places, sent, interval, now, until, alerts[..|alerts| - 1])
    requires Selected(sent, interval, now, alerts[|alerts| - 1])
    ensures Picks(due + [Stamp(alerts[|alerts| - 1], until)], places + [|alerts| - 1], sent, interval, now, until, alerts)
  {
    var n := |alerts| - 1;
    assert forall i :: 0 <= i < n ==> alerts[..n][i] == alerts[i];
    assert (places + [n])[|places|] == n;
    assert WorthPosting(sent, interval, now, alerts[n]);
    hide WorthPosting, Selected;
  }

  lemma PicksNone(due: seq<Alert>, places: seq<nat>, sent: Sent, interval: Time, now: Time, until: Time, alerts: seq<Alert>)
    requires alerts != [] && Picks(due, places, sent, interval, now, until, alerts[..|alerts| - 1])
    requires !Selected(sent, interval, now, alerts[|alerts| - 1])
    ensures Picks(due, places, sent, interval, now, until, alerts)
  {
    var n := |alerts| - 1;
    assert forall i :: 0 <= i < n ==> alerts[..n][i] == alerts[i];
    assert !WorthPosting(sent, interval, now, alerts[n]);
    hide WorthPosting, Selected;
  }

  /** A call that sweeps is an interval or more after the last that did, and leaves no entry that is
      older than a validity and an interval. No other entry goes, and a call that does not sweep
      takes none away. */
  lemma SweepBoundsMap(t: Throttle, interval: Time, tolerance: int, now: Time, evalInterval: Time, fp: Fingerprint)
    ensures var swept := Sweep(t, interval, tolerance, now, evalInterval);
            var longest := if evalInterval > interval then evalInterval else interval;
            && (swept == t || (swept.lastSwept == Some(now) && (t.lastSwept.Some? ==> now >= t.lastSwept.value + interval)))
            && (swept.lastSwept == Some(now) && t.lastSwept != Some(now) && fp in swept.sent ==>
                  now - swept.sent[fp] <= tolerance * longest + interval)
            && (fp in t.sent && now - t.sent[fp] <= tolerance * longest + interval ==> Get(swept.sent, fp) == Some(t.sent[fp]))
            && (fp in swept.sent ==> Get(t.sent, fp) == Some(swept.sent[fp]))
            && (t.lastSwept.None? || now - t.lastSwept.value >= interval ==> swept.lastSwept == Some(now))
  {
  }

  /** Selecting reads the throttle only through the due alerts. */
  lemma {:induction false} SelectionSame(s: Sent, t: Sent, interval: Time, now: Time, until: Time, alerts: seq<Alert>)
    requires forall i :: 0 <= i < |alerts| ==> (Selected(s, interval, now, alerts[i]) <==> Selected(t, interval, now, alerts[i]))
    ensures Selection(s, interval, now, until, alerts) == Selection(t, interval, now, until, alerts)
  {
    if alerts != [] {
      SelectionSame(s, t, interval, now, until, alerts[..|alerts| - 1]);
    }
  }

  /** What is posted is recorded under its own fingerprint, and nothing else changes. */
  lemma {:induction false} RecordedAt(sent: Sent, now: Time, posted: seq<Alert>, fp: Fingerprint)
    ensures Get(Recorded(sent, now, posted), fp) ==
            if exists i :: 0 <= i < |posted| && posted[i].phase != Pending && posted[i].fingerprint == fp then Some(now) else Get(sent, fp)
  {
    if posted != [] {
      var n := |posted| - 1;
      RecordedAt(sent, now, posted[..n], fp);
      if i :| 0 <= i < n && posted[i].phase != Pending && posted[i].fingerprint == fp {
        assert posted[..n][i] == posted[i];
      }
      if i :| 0 <= i < n && posted[..n][i].phase != Pending && posted[..n][i].fingerprint == fp {
        assert posted[..n][i] == posted[i];
      }
    }
  }

  // Pruning is invisible.

  /** What each call of a run posts. */
  function Posts(t: Throttle, interval: Time, tolerance: int, calls: seq<Call>, pruning: bool): seq<seq<Alert>>
    decreases |calls|
  {
    if calls == [] then []
    else [Chosen(t, interval, tolerance, calls[0])] + Posts(After(t, interval, tolerance, calls[0], pruning), interval, tolerance, calls[1..], pruning)
  }

  /** The throttle after the first `n` calls. */
  function AfterCalls(t: Throttle, interval: Time, tolerance: int, calls: seq<Call>, n: nat, pruning: bool): Throttle
    requires n <= |calls|
  {
    if n == 0 then t else After(AfterCalls(t, interval, tolerance, calls, n - 1, pruning), interval, tolerance, calls[n - 1], pruning)
  }

  lemma {:induction false} AfterFirst(t: Throttle, interval: Time, tolerance: int, calls: seq<Call>, n: nat, pruning: bool)
    requires 1 <= n <= |calls|
    ensures AfterCalls(t, interval, tolerance, calls, n, pruning)
         == AfterCalls(After(t, interval, tolerance, calls[0], pruning), interval, tolerance, calls[1..], n - 1, pruning)
  {
    hide After;
    if n > 1 {
      AfterFirst(t, interval, tolerance, calls, n - 1, pruning);
    }
  }

  /** Each call posts what is due by the throttle as the calls before it left it. */
  lemma {:induction false} PostsAt(t: Throttle, interval: Time, tolerance: int, calls: seq<Call>, n: nat, pruning: bool)
    requires n < |calls|
    ensures |Posts(t, interval, tolerance, calls, pruning)| == |calls|
    ensures Posts(t, interval, tolerance, calls, pruning)[n]
         == Chosen(AfterCalls(t, interval, tolerance, calls, n, pruning), interval, tolerance, calls[n])
    decreases |calls|
  {
    hide After, Chosen;
    var next := After(t, interval, tolerance, calls[0], pruning);
    if |calls| > 1 {
      PostsAt(next, interval, tolerance, calls[1..], if n == 0 then 0 else n - 1, pruning);
    }
    if n > 0 {
      AfterFirst(t, interval, tolerance, calls, n, pruning);
    }
  }

  /** No later call is behind a delivered one by more than that one's validity and some slack. */
  ghost predicate BehindBy(interval: Time, tolerance: int, calls: seq<Call>, slack: Time) {
    forall i, j :: 0 <= i < j < |calls| && calls[i].delivered ==>
      calls[j].now >= calls[i].now - Validity(interval, tolerance, calls[i].evalInterval) - slack
  }

  /** The clock of a run goes back so little that nothing swept can be missed. */
  ghost predicate NotFarBehind(interval: Time, tolerance: int, calls: seq<Call>) {
    BehindBy(interval, tolerance, calls, 1)
  }

  /** The pruned map lacks only entries old enough to be due at every call still to come. */
  ghost predicate Harmless(pruned: Sent, full: Sent, interval: Time, calls: seq<Call>) {
    && (forall fp :: fp in pruned ==> Get(full, fp) == Some(pruned[fp]))
    && (forall fp, i :: fp in full && fp !in pruned && 0 <= i < |calls| ==> calls[i].now - full[fp] >= interval)
  }

  lemma HarmlessSelects(pruned: Sent, full: Sent, interval: Time, calls: seq<Call>, until: Time)
    requires calls != [] && Harmless(pruned, full, interval, calls)
    ensures Selection(pruned, interval, calls[0].now, until, calls[0].alerts) == Selection(full, interval, calls[0].now, until, calls[0].alerts)
  {
    SelectionSame(pruned, full, interval, calls[0].now, until, calls[0].alerts);
  }

  lemma HarmlessRecords(pruned: Sent, full: Sent, interval: Time, calls: seq<Call>, now: Time, posted: seq<Alert>)
    requires Harmless(pruned, full, interval, calls)
    ensures Harmless(Recorded(pruned, now, posted), Recorded(full, now, posted), interval, calls)
  {
    var p, f := Recorded(pruned, now, posted), Recorded(full, now, posted);
    forall fp | fp in p ensures Get(f, fp) == Some(p[fp]) {
      RecordedAt(pruned, now, posted, fp);
      RecordedAt(full, now, posted, fp);
    }
    forall fp, i | fp in f && fp !in p && 0 <= i < |calls| ensures calls[i].now - f[fp] >= interval {
      RecordedAt(pruned, now, posted, fp);
      RecordedAt(full, now, posted, fp);
    }
  }

  /** A cadence that sweeps and one that never does post the same alerts on every call. */
  lemma {:induction false} PruningIsInvisible(p: Throttle, f: Throttle, interval: Time, tolerance: int, calls: seq<Call>)
    requires NotFarBehind(interval, tolerance, calls)
    requires Harmless(p.sent, f.sent, interval, calls)
    ensures Posts(p, interval, tolerance, calls, true) == Posts(f, interval, tolerance, calls, false)
    decreases |calls|
  {
    if calls != [] {
      var c := calls[0];
      var until := c.now + Validity(interval, tolerance, c.evalInterval);
      HarmlessSelects(p.sent, f.sent, interval, calls, until);
      var chosen := Chosen(p, interval, tolerance, c);
      HarmlessRecords(p.sent, f.sent, interval, calls, c.now, chosen);
      PruningIsInvisible(After(p, interval, tolerance, c, true), After(f, interval, tolerance, c, false), interval, tolerance, calls[1..]);
    }
  }

  /** One instant further behind than that is too far, on every pair of intervals: the entry of
      an alert is swept, and the alert posted again although it is not due. */
  lemma PruningShowsFarBehind(interval: Time, tolerance: int, evalInterval: Time, gap: Time) returns (calls: seq<Call>)
    requires interval > 0 && tolerance >= 0 && gap > Validity(interval, tolerance, evalInterval) + 1
    ensures |calls| == 3 && forall i :: 0 <= i < 3 ==> calls[i].delivered && calls[i].evalInterval == evalInterval
    ensures calls[0].now <= calls[1].now && calls[2].now == calls[1].now - gap
    ensures Posts(Throttle(map[], None), interval, tolerance, calls, true)
         != Posts(Throttle(map[], None), interval, tolerance, calls, false)
  {
    var period := if evalInterval > interval then evalInterval else interval;
    assert Validity(interval, tolerance, evalInterval) == tolerance * period >= 0;
    var swept := Validity(interval, tolerance, evalInterval) + interval + 1;
    var a, b := FirstAlert(1), FirstAlert(2);
    calls := [Call(0, evalInterval, [a], true), Call(swept, evalInterval, [b], true), Call(swept - gap, evalInterval, [a], true)];
    hide Validity, After, Chosen, FirstAlert;
    var t := Throttle(map[], None);
    Forgets(interval, tolerance, calls[0], calls[1], a, b);
    ThirdCall(t, interval, tolerance, calls, true);
    ThirdCall(t, interval, tolerance, calls, false);
    ChosenOne(AfterCalls(t, interval, tolerance, calls, 2, true), interval, tolerance, calls[2], a);
    ChosenOne(AfterCalls(t, interval, tolerance, calls, 2, false), interval, tolerance, calls[2], a);
    var i := 2;
    assert Posts(t, interval, tolerance, calls, true)[i] != Posts(t, interval, tolerance, calls, false)[i];
  }

  /** An alert firing since time zero. */
  function FirstAlert(fp: Fingerprint): (a: Alert)
    ensures a.fingerprint == fp && a.phase == Firing && a.firedAt == 0
  {
    Alert(fp, Labels(map[]), 0.0, Firing, 0, 0, 0, map[], 0)
  }

  /** The entry of a first post is swept by a second that comes late enough. */
  lemma Forgets(interval: Time, tolerance: int, c: Call, d: Call, a: Alert, b: Alert)
    requires c.alerts == [a] && d.alerts == [b] && c.delivered && d.delivered && a.fingerprint != b.fingerprint
    requires a.phase == Firing && b.phase == Firing && c.now == 0 && c.evalInterval == d.evalInterval
    requires d.now == Validity(interval, tolerance, d.evalInterval) + interval + 1
    requires interval > 0 && Validity(interval, tolerance, d.evalInterval) >= 0
    ensures var t := Throttle(map[], None);
            && Get(After(After(t, interval, tolerance, c, true), interval, tolerance, d, true).sent, a.fingerprint) == None
            && Get(After(After(t, interval, tolerance, c, false), interval, tolerance, d, false).sent, a.fingerprint) == Some(0)
  {
    hide After, Chosen, Validity;
    var t := Throttle(map[], None);
    AfterOne(t, interval, tolerance, c, a, true);
    AfterOne(t, interval, tolerance, c, a, false);
    AfterOne(After(t, interval, tolerance, c, true), interval, tolerance, d, b, true);
    AfterOne(After(t, interval, tolerance, c, false), interval, tolerance, d, b, false);
  }

  /** A sweep shows in no run of the calls. */
  ghost predicate Invisible(interval: Time, tolerance: int, calls: seq<Call>) {
    Posts(Throttle(map[], None), interval, tolerance, calls, true) == Posts(Throttle(map[], None), interval, tolerance, calls, false)
  }

  /** The bound is the exact one: sweeping is invisible on every run that keeps to it, and on
      every larger bound some run shows it. */
  lemma ClockBoundExactly(interval: Time, tolerance: int, slack: Time)
    requires interval > 0 && tolerance >= 0
    ensures (forall calls :: BehindBy(interval, tolerance, calls, slack) ==> Invisible(interval, tolerance, calls)) <==> slack <= 1
  {
    if slack <= 1 {
      forall calls | BehindBy(interval, tolerance, calls, slack) ensures Invisible(interval, tolerance, calls) {
        assert NotFarBehind(interval, tolerance, calls);
        PruningIsInvisible(Throttle(map[], None), Throttle(map[], None), interval, tolerance, calls);
      }
    } else {
      var calls := PruningShowsFarBehind(interval, tolerance, interval, Validity(interval, tolerance, interval) + slack);
      assert Validity(interval, tolerance, interval) == tolerance * interval >= 0;
      hide Validity;
      assert BehindBy(interval, tolerance, calls, slack) && !Invisible(interval, tolerance, calls);
    }
  }

  lemma ChosenOne(t: Throttle, interval: Time, tolerance: int, c: Call, a: Alert)
    requires c.alerts == [a]
    ensures Chosen(t, interval, tolerance, c) ==
            if Selected(t.sent, interval, c.now, a) then [Stamp(a, c.now + Validity(interval, tolerance, c.evalInterval))] else []
  {
    assert c.alerts[..0] == [];
    assert Selection(t.sent, interval, c.now, c.now + Validity(interval, tolerance, c.evalInterval), []) == [];
  }

  lemma AfterOne(t: Throttle, interval: Time, tolerance: int, c: Call, a: Alert, pruning: bool)
    requires c.alerts == [a] && c.delivered && a.phase == Firing && Selected(t.sent, interval, c.now, a)
    ensures var marked := t.(sent := t.sent[a.fingerprint := c.now]);
            After(t, interval, tolerance, c, pruning) ==
              if pruning then Sweep(marked, interval, tolerance, c.now, c.evalInterval) else marked
  {
    hide Chosen, Selected, Sweep, Validity;
    ChosenOne(t, interval, tolerance, c, a);
    var stamped := Stamp(a, c.now + Validity(interval, tolerance, c.evalInterval));
    assert [stamped][..0] == [];
    assert Recorded(t.sent, c.now, []) == t.sent;
  }

  lemma ThirdCall(t: Throttle, interval: Time, tolerance: int, calls: seq<Call>, pruning: bool)
    requires |calls| == 3
    ensures |Posts(t, interval, tolerance, calls, pruning)| == 3
    ensures Posts(t, interval, tolerance, calls, pruning)[2]
         == Chosen(AfterCalls(t, interval, tolerance, calls, 2, pruning), interval, tolerance, calls[2])
    ensures AfterCalls(t, interval, tolerance, calls, 2, pruning)
         == After(After(t, interval, tolerance, calls[0], pruning), interval, tolerance, calls[1], pruning)
  {
    PostsAt(t, interval, tolerance, calls, 2, pruning);
    hide After, Chosen, Posts;
    assert AfterCalls(t, interval, tolerance, calls, 1, pruning) == After(t, interval, tolerance, calls[0], pruning);
  }
}
