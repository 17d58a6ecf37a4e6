/** Whole runs of one State: any sequence of evaluations, failed evaluations and reloads. */
module Lifecycle {
  import opened Options
  import opened AlertModel

  datatype Event =
    | Evaluated(now: Time, samples: seq<Sample>)
    | Failed
    | Reloaded(rule: Rule, groupLabels: Labels, src: Source, retention: Time)

  datatype World = World(cfg: Config, model: Model)

  ghost function Loaded(e: Event): Config
    requires e.Reloaded?
  {
    Config(e.rule, BaseLabels(e.rule, e.groupLabels), e.src, e.retention)
  }

  /** What `State.Eval`, a failed query and `State.Adopt` do to one State. */
  ghost function Apply(w: World, e: Event, hash: Labels -> Fingerprint): World {
    match e
    case Evaluated(now, samples) =>
      if DistinctRows(w.cfg, samples) then w.(model := Next(w.model, Rows(w.cfg, samples), hash, now, w.cfg)) else w
    case Failed => w
    case Reloaded(_, _, _, _) => if Adoptable(w.cfg, Loaded(e)) then w.(cfg := Loaded(e)) else w
  }

  ghost function Run(w: World, events: seq<Event>, hash: Labels -> Fingerprint): World {
    if events == [] then w else Apply(Run(w, events[..|events| - 1], hash), events[|events| - 1], hash)
  }

  /** One evaluation that happened, as one label set saw it. */
  datatype Tick = Tick(now: Time, row: Option<real>, cfg: Config)

  ghost function Follow(ticks: seq<Tick>, hash: Labels -> Fingerprint, l: Labels): Option<Inst> {
    if ticks == [] then None
    else
      var t := ticks[|ticks| - 1];
      Step(Follow(ticks[..|ticks| - 1], hash, l), t.row, hash(l), l, t.now, t.cfg)
  }

  /** The evaluations of a run that happened: not the failed ones, not the refused ones. */
  ghost function Ticks(w: World, events: seq<Event>, hash: Labels -> Fingerprint, l: Labels): seq<Tick> {
    if events == [] then []
    else
      var rest := events[..|events| - 1];
      var e := events[|events| - 1];
      var cfg := Run(w, rest, hash).cfg;
      Ticks(w, rest, hash, l) +
      if e.Evaluated? && DistinctRows(cfg, e.samples) then [Tick(e.now, Get(Rows(cfg, e.samples), l), cfg)] else []
  }

  /** Label sets do not interfere: each follows its own rows, across failures and reloads. */
  lemma {:induction false} RunFollows(w: World, events: seq<Event>, hash: Labels -> Fingerprint, l: Labels)
    requires w.model == map[]
    ensures Get(Run(w, events, hash).model, l) == Follow(Ticks(w, events, hash, l), hash, l)
  {
    if events != [] {
      var rest := events[..|events| - 1];
      var e := events[|events| - 1];
      RunFollows(w, rest, hash, l);
      var before := Run(w, rest, hash);
      var ticks := Ticks(w, rest, hash, l);
      if e.Evaluated? && DistinctRows(before.cfg, e.samples) {
        var rows := Rows(before.cfg, e.samples);
        var t := Tick(e.now, Get(rows, l), before.cfg);
        assert Ticks(w, events, hash, l) == ticks + [t];
        assert (ticks + [t])[..|ticks|] == ticks;
        NextAt(before.model, rows, hash, l, e.now, before.cfg);
      } else {
        assert Ticks(w, events, hash, l) == ticks;
      }
    }
  }

  lemma NextAt(m: Model, rows: map<Labels, real>, hash: Labels -> Fingerprint, l: Labels, now: Time, c: Config)
    ensures Get(Next(m, rows, hash, now, c), l) == Step(Get(m, l), Get(rows, l), hash(l), l, now, c)
  {
  }

  /** The phase and the times of an instance: what its life is, whatever its labels and value. */
  datatype Timing = Timing(phase: Phase, activeAt: Time, firedAt: Time, resolvedAt: Time, lastSeen: Time)

  function TimingOf(x: Option<Inst>): Option<Timing> {
    if x.None? then None
    else var a := x.value.alert; Some(Timing(a.phase, a.activeAt, a.firedAt, a.resolvedAt, x.value.lastSeen))
  }

  function Advance(prev: Option<Timing>, t: Tick): Option<Timing> {
    if t.row.Some? then
      var x := if prev.Some? && prev.value.phase != Resolved then prev.value else Timing(Pending, t.now, 0, 0, 0);
      if x.phase == Pending && t.now - x.activeAt >= t.cfg.rule.holdFor
      then Some(x.(phase := Firing, firedAt := t.now, lastSeen := t.now))
      else Some(x.(lastSeen := t.now))
    else if prev.None? || prev.value.phase == Pending then None
    else if prev.value.phase == Resolved then
      if t.now - prev.value.resolvedAt > t.cfg.retention then None else prev
    else if t.now - prev.value.lastSeen < t.cfg.rule.keepFiringFor then prev
    else Some(prev.value.(phase := Resolved, resolvedAt := t.now))
  }

  function Timings(ticks: seq<Tick>): Option<Timing> {
    if ticks == [] then None else Advance(Timings(ticks[..|ticks| - 1]), ticks[|ticks| - 1])
  }

  lemma {:induction false} FollowTimings(ticks: seq<Tick>, hash: Labels -> Fingerprint, l: Labels)
    ensures TimingOf(Follow(ticks, hash, l)) == Timings(ticks)
  {
    if ticks != [] {
      FollowTimings(ticks[..|ticks| - 1], hash, l);
    }
  }

  /** The life of an instance: created at `born`, fired at `fired`, resolved at `ended`. */
  datatype Story = Waiting(born: nat) | Burning(born: nat, fired: nat) | Over(born: nat, fired: nat, ended: nat)

  /** The index of the last tick before `n` that returned a row, or -1. */
  function LastRow(ticks: seq<Tick>, n: nat): (j: int)
    requires n <= |ticks|
    ensures -1 <= j < n
    ensures j >= 0 ==> ticks[j].row.Some?
    ensures forall k :: j < k < n ==> ticks[k].row.None?
  {
    if n == 0 then -1 else if ticks[n - 1].row.Some? then n - 1 else LastRow(ticks, n - 1)
  }

  /** A new instance starts at `a`: a row, and nothing alive for it to continue. */
  ghost predicate Starts(ticks: seq<Tick>, a: nat) {
    && a < |ticks|
    && ticks[a].row.Some?
    && var prev := Timings(ticks[..a]);
       prev.Some? ==> prev.value.phase == Resolved
  }

  /** Returned by every evaluation from `a` on, and `for` not reached at any before `n`. */
  ghost predicate Waits(ticks: seq<Tick>, a: nat, n: nat)
    requires n <= |ticks|
  {
    forall k :: a <= k < n ==> ticks[k].row.Some? && ticks[k].now - ticks[a].now < ticks[k].cfg.rule.holdFor
  }

  /** `f` is the first evaluation at which `for` has been reached. */
  ghost predicate FiresAt(ticks: seq<Tick>, a: nat, f: nat) {
    && a <= f < |ticks|
    && Waits(ticks, a, f)
    && ticks[f].row.Some?
    && ticks[f].now - ticks[a].now >= ticks[f].cfg.rule.holdFor
  }

  ghost predicate Kept(ticks: seq<Tick>, k: nat)
    requires k < |ticks|
  {
    ticks[k].row.Some? || (LastRow(ticks, k) >= 0 && ticks[k].now - ticks[LastRow(ticks, k)].now < ticks[k].cfg.rule.keepFiringFor)
  }

  /** Between `f` and `n`, every absence was shorter than `keep_firing_for`. */
  ghost predicate Burns(ticks: seq<Tick>, f: nat, n: nat)
    requires n <= |ticks|
  {
    forall k :: f < k < n ==> Kept(ticks, k)
  }

  ghost predicate ResolvesAt(ticks: seq<Tick>, f: nat, r: nat) {
    f < r < |ticks| && Burns(ticks, f, r) && !Kept(ticks, r)
  }

  /** Absent and inside its retention since `r`. */
  ghost predicate Retained(ticks: seq<Tick>, r: nat) {
    r < |ticks| && forall k :: r < k < |ticks| ==> ticks[k].row.None? && ticks[k].now - ticks[r].now <= ticks[k].cfg.retention
  }

  ghost predicate Tells(ticks: seq<Tick>, s: Story) {
    && Starts(ticks, s.born)
    && match s
       case Waiting(a) => Waits(ticks, a, |ticks|)
       case Burning(a, f) => FiresAt(ticks, a, f) && Burns(ticks, f, |ticks|)
       case Over(a, f, r) => FiresAt(ticks, a, f) && ResolvesAt(ticks, f, r) && Retained(ticks, r)
  }

  ghost predicate Matches(ticks: seq<Tick>, s: Story, x: Timing)
  {
    && s.born < |ticks|
    && x.activeAt == ticks[s.born].now
    && LastRow(ticks, |ticks|) >= 0
    && x.lastSeen == ticks[LastRow(ticks, |ticks|)].now
    && (match s
        case Waiting(_) => x.phase == Pending
        case Burning(_, f) => x.phase == Firing && f < |ticks| && x.firedAt == ticks[f].now
        case Over(_, f, r) => x.phase == Resolved && f < |ticks| && r < |ticks|
                              && x.firedAt == ticks[f].now && x.resolvedAt == ticks[r].now)
  }

  lemma {:induction false} LastRowPrefix(ticks: seq<Tick>, n: nat, k: nat)
    requires k <= n <= |ticks|
    ensures LastRow(ticks[..n], k) == LastRow(ticks, k)
  {
    if k > 0 {
      LastRowPrefix(ticks, n, k - 1);
    }
  }

  lemma PrefixAgrees(ticks: seq<Tick>, m: nat)
    requires m <= |ticks|
    ensures forall k :: 0 <= k < m ==> (Kept(ticks[..m], k) <==> Kept(ticks, k))
    ensures forall a :: 0 <= a < m ==> (Starts(ticks[..m], a) <==> Starts(ticks, a))
    ensures LastRow(ticks[..m], m) == LastRow(ticks, m)
  {
    forall k | 0 <= k < m ensures Kept(ticks[..m], k) <==> Kept(ticks, k) {
      LastRowPrefix(ticks, m, k);
    }
    forall a | 0 <= a < m ensures Starts(ticks[..m], a) <==> Starts(ticks, a) {
      assert ticks[..m][..a] == ticks[..a];
    }
    LastRowPrefix(ticks, m, m);
  }

  ghost predicate Describes(ticks: seq<Tick>, s: Option<Story>) {
    && (s.Some? <==> Timings(ticks).Some?)
    && (s.Some? ==> Tells(ticks, s.value) && Matches(ticks, s.value, Timings(ticks).value))
  }

  lemma RowWhileWaiting(ticks: seq<Tick>, a: nat) returns (s: Story)
    requires ticks != [] && ticks[|ticks| - 1].row.Some?
    requires Describes(ticks[..|ticks| - 1], Some(Waiting(a)))
    ensures Describes(ticks, Some(s))
  {
    var n := |ticks| - 1;
    PrefixAgrees(ticks, n);
    s := if ticks[n].now - ticks[a].now >= ticks[n].cfg.rule.holdFor then Burning(a, n) else Waiting(a);
  }

  lemma RowWhileBurning(ticks: seq<Tick>, a: nat, f: nat)
    requires ticks != [] && ticks[|ticks| - 1].row.Some?
    requires Describes(ticks[..|ticks| - 1], Some(Burning(a, f)))
    ensures Describes(ticks, Some(Burning(a, f)))
  {
    hide Starts;
    PrefixAgrees(ticks, |ticks| - 1);
  }

  lemma RowWhileGone(ticks: seq<Tick>, before: Option<Story>) returns (s: Story)
    requires ticks != [] && ticks[|ticks| - 1].row.Some?
    requires Describes(ticks[..|ticks| - 1], before) && (before.None? || before.value.Over?)
    ensures Describes(ticks, Some(s))
  {
    var n := |ticks| - 1;
    s := if ticks[n].now - ticks[n].now >= ticks[n].cfg.rule.holdFor then Burning(n, n) else Waiting(n);
  }

  lemma AbsentWhileBurning(ticks: seq<Tick>, a: nat, f: nat) returns (s: Story)
    requires ticks != [] && ticks[|ticks| - 1].row.None?
    requires Describes(ticks[..|ticks| - 1], Some(Burning(a, f)))
    ensures Describes(ticks, Some(s))
  {
    var n := |ticks| - 1;
    PrefixAgrees(ticks, n);
    s := if Kept(ticks, n) then Burning(a, f) else Over(a, f, n);
  }

  lemma AbsentWhileOver(ticks: seq<Tick>, a: nat, f: nat, r: nat) returns (s: Option<Story>)
    requires ticks != [] && ticks[|ticks| - 1].row.None?
    requires Describes(ticks[..|ticks| - 1], Some(Over(a, f, r)))
    ensures Describes(ticks, s)
  {
    var n := |ticks| - 1;
    PrefixAgrees(ticks, n);
    s := if ticks[n].now - ticks[r].now > ticks[n].cfg.retention then None else Some(Over(a, f, r));
  }

  /** Every tracked instance has a story, and the story is what happened: an instance fires at
      the first evaluation `for` has elapsed at, having been returned by every one since it
      became active, and resolves at the first one `keep_firing_for` has run out at. */
  lemma {:induction false} EveryInstanceHasAStory(ticks: seq<Tick>) returns (s: Option<Story>)
    ensures Describes(ticks, s)
  {
    if ticks == [] {
      return None;
    }
    var n := |ticks| - 1;
    var before := EveryInstanceHasAStory(ticks[..n]);
    if ticks[n].row.Some? {
      if before.None? || before.value.Over? {
        var t := RowWhileGone(ticks, before);
        s := Some(t);
      } else if before.value.Waiting? {
        var t := RowWhileWaiting(ticks, before.value.born);
        s := Some(t);
      } else {
        RowWhileBurning(ticks, before.value.born, before.value.fired);
        s := before;
      }
    } else if before.None? || before.value.Waiting? {
      s := None;
    } else if before.value.Burning? {
      var t := AbsentWhileBurning(ticks, before.value.born, before.value.fired);
      s := Some(t);
    } else {
      s := AbsentWhileOver(ticks, before.value.born, before.value.fired, before.value.ended);
    }
  }

  /** The story as it stood one evaluation earlier. */
  function Earlier(s: Story, n: nat): Story {
    match s
    case Waiting(a) => s
    case Burning(a, f) => if f < n then s else Waiting(a)
    case Over(a, f, r) => if r < n then s else Burning(a, f)
  }

  lemma EarlierTells(ticks: seq<Tick>, s: Story)
    requires ticks != [] && Tells(ticks, s) && s.born < |ticks| - 1
    ensures Tells(ticks[..|ticks| - 1], Earlier(s, |ticks| - 1))
  {
    hide Timings, Advance, Kept, Starts, LastRow;
    PrefixAgrees(ticks, |ticks| - 1);
  }

  lemma LaterMatches(ticks: seq<Tick>, s: Story)
    requires ticks != [] && Tells(ticks, s) && s.born < |ticks| - 1
    requires var prefix := ticks[..|ticks| - 1];
             Timings(prefix).Some? && Matches(prefix, Earlier(s, |ticks| - 1), Timings(prefix).value)
    ensures Timings(ticks).Some? && Matches(ticks, s, Timings(ticks).value)
  {
    hide Timings, LastRow, Starts;
    var n := |ticks| - 1;
    PrefixAgrees(ticks, n);
    OneMoreTick(ticks);
    if s.Burning? && s.fired < n {
      assert Kept(ticks, n);
    }
  }

  lemma OneMoreTick(ticks: seq<Tick>)
    requires ticks != []
    ensures var n := |ticks| - 1;
            && LastRow(ticks, n + 1) == (if ticks[n].row.Some? then n else LastRow(ticks, n))
            && Timings(ticks) == Advance(Timings(ticks[..n]), ticks[n])
  {
  }

  /** The other direction: a story decides the instance, its phase and every one of its times. */
  lemma {:induction false} AStoryDecides(ticks: seq<Tick>, s: Story)
    requires Tells(ticks, s)
    ensures Timings(ticks).Some? && Matches(ticks, s, Timings(ticks).value)
    decreases |ticks|
  {
    var n := |ticks| - 1;
    if s.born < n {
      EarlierTells(ticks, s);
      AStoryDecides(ticks[..n], Earlier(s, n));
      LaterMatches(ticks, s);
    }
  }

  /** Over any run, from a fresh State: what is tracked for a label set is exactly what the
      story of its evaluations says. */
  lemma RunTellsTheStory(w: World, events: seq<Event>, hash: Labels -> Fingerprint, l: Labels) returns (s: Option<Story>)
    requires w.model == map[]
    ensures s.Some? <==> l in Run(w, events, hash).model
    ensures s.Some? ==> Tells(Ticks(w, events, hash, l), s.value)
    ensures s.Some? ==> Matches(Ticks(w, events, hash, l), s.value, TimingOf(Some(Run(w, events, hash).model[l])).value)
  {
    var ticks := Ticks(w, events, hash, l);
    s := EveryInstanceHasAStory(ticks);
    RunFollows(w, events, hash, l);
    FollowTimings(ticks, hash, l);
  }

  /** An instance fires by the end of a run exactly when some story of its evaluations fires it. */
  lemma FiringExactly(w: World, events: seq<Event>, hash: Labels -> Fingerprint, l: Labels)
    requires w.model == map[]
    ensures (l in Run(w, events, hash).model && Run(w, events, hash).model[l].alert.phase == Firing)
       <==> exists a, f :: Tells(Ticks(w, events, hash, l), Burning(a, f))
  {
    var ticks := Ticks(w, events, hash, l);
    var s := RunTellsTheStory(w, events, hash, l);
    RunFollows(w, events, hash, l);
    FollowTimings(ticks, hash, l);
    if l in Run(w, events, hash).model && Run(w, events, hash).model[l].alert.phase == Firing {
      assert Tells(ticks, Burning(s.value.born, s.value.fired));
    }
    if a, f :| Tells(ticks, Burning(a, f)) {
      AStoryDecides(ticks, Burning(a, f));
    }
  }

  /** How far along its life an instance is. */
  function Rank(p: Phase): nat {
    match p
    case Pending => 0
    case Firing => 1
    case Resolved => 2
  }

  /** One evaluation either starts the instance afresh or moves it forward, keeping the times
      of every phase it has already been through. */
  lemma PhasesOnlyAdvance(prev: Inst, row: Option<real>, fp: Fingerprint, l: Labels, now: Time, c: Config)
    ensures var next := Step(Some(prev), row, fp, l, now, c);
            if row.Some? && prev.alert.phase == Resolved then next.Some? && next.value.alert.activeAt == now
            else next.Some? ==>
              && Rank(prev.alert.phase) <= Rank(next.value.alert.phase)
              && (prev.alert.phase == Pending ==> next.value.alert.phase != Resolved)
              && next.value.alert.activeAt == prev.alert.activeAt
              && (prev.alert.phase != Pending ==> next.value.alert.firedAt == prev.alert.firedAt)
              && (prev.alert.phase == Resolved ==> next == Some(prev))
  {
  }

  /** After an evaluation a firing instance was just returned, or is inside `keep_firing_for`. */
  lemma FiringIsRecent(m: Model, rows: map<Labels, real>, hash: Labels -> Fingerprint, now: Time, c: Config, l: Labels)
    requires l in Next(m, rows, hash, now, c) && Next(m, rows, hash, now, c)[l].alert.phase == Firing
    ensures var x := Next(m, rows, hash, now, c)[l];
            if l in rows then x.lastSeen == now && x.alert.value == rows[l] else now - x.lastSeen < c.rule.keepFiringFor
  {
    NextAt(m, rows, hash, l, now, c);
  }

  /** Adopting a definition leaves the identity of every row as it was. */
  lemma AdoptKeepsIdentity(held: Config, loaded: Config, samples: seq<Sample>)
    requires Adoptable(held, loaded)
    ensures forall s :: LabelsFor(held, s) == LabelsFor(loaded, s)
    ensures DistinctRows(held, samples) <==> DistinctRows(loaded, samples)
    ensures Rows(held, samples) == Rows(loaded, samples)
  {
    if samples != [] {
      AdoptKeepsIdentity(held, loaded, samples[..|samples| - 1]);
    }
  }

  /** A run with its reloads taken out. */
  ghost function WithoutReloads(events: seq<Event>): seq<Event> {
    if events == [] then []
    else
      var e := events[|events| - 1];
      WithoutReloads(events[..|events| - 1]) + if e.Reloaded? then [] else [e]
  }

  /** Reloading an unchanged definition, however often and whenever, changes nothing. */
  lemma {:induction false} UnchangedReloadsAreInvisible(w: World, events: seq<Event>, hash: Labels -> Fingerprint)
    requires forall i :: 0 <= i < |events| && events[i].Reloaded? ==> Loaded(events[i]) == w.cfg
    ensures Run(w, events, hash) == Run(w, WithoutReloads(events), hash)
    ensures Run(w, events, hash).cfg == w.cfg
  {
    if events != [] {
      var rest := events[..|events| - 1];
      var e := events[|events| - 1];
      assert forall i :: 0 <= i < |rest| ==> rest[i] == events[i];
      UnchangedReloadsAreInvisible(w, rest, hash);
      if e.Reloaded? {
        assert WithoutReloads(events) == WithoutReloads(rest);
      } else {
        var kept := WithoutReloads(rest);
        assert (kept + [e])[..|kept|] == kept;
      }
    }
  }
}
