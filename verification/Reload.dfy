/** Replacing the open connections while evaluations are running.

    Every interleaving of evaluation passes with a reload, which opens what it needs, stops the
    scheduler, waits, swaps, restarts, and only then closes what is left over. */
module Reload {
  import opened Options
  import opened Gathering

  type Conn = nat

  type Open = map<string, Conn>

  datatype Phase =
    | Quiet
    | Opening(todo: seq<Def>, next: Open, defs: map<string, Def>, acquired: set<Conn>)
    | Failing(left: set<Conn>)
    | Draining(next: Open, defs: map<string, Def>, wasRunning: bool)
    | Closing(next: Open, defs: map<string, Def>, left: set<Conn>)

  datatype System = System(
    running: Open, defs: map<string, Def>,   // the connections and the definitions behind them
    sched: Open,                             // what the scheduler hands to an evaluation
    ticking: bool,                           // whether evaluations may start
    passes: map<nat, Open>,                  // the passes in flight and the connections each holds
    closes: seq<nat>,                        // how often each connection ever opened was closed
    phase: Phase)

  datatype Action =
    | Begin(config: seq<Def>) | OpenNext(succeeds: bool) | CloseFailed(conn: Conn) | Refused
    | Drain | Swap | CloseOld(conn: Conn) | Publish
    | StartTicking | StartPass(id: nat) | EndPass(id: nat)

  /** The running connections the next configuration does not hold under their name. */
  ghost function Leftover(running: Open, next: Open): set<Conn> {
    set n | n in running && Get(next, n) != Some(running[n]) :: running[n]
  }

  ghost predicate Enabled(s: System, a: Action) {
    match a
    case Begin(config) => s.phase.Quiet? && DistinctNames(config)
    case OpenNext(_) => s.phase.Opening? && s.phase.todo != []
    case CloseFailed(c) => s.phase.Failing? && c in s.phase.left && c < |s.closes|
    case Refused => s.phase.Failing? && s.phase.left == {}
    case Drain => s.phase.Opening? && s.phase.todo == []
    case Swap => s.phase.Draining? && s.passes == map[]
    case CloseOld(c) => s.phase.Closing? && c in s.phase.left && c < |s.closes|
    case Publish => s.phase.Closing? && s.phase.left == {}
    case StartTicking => !s.phase.Draining?
    case StartPass(id) => s.ticking && id !in s.passes
    case EndPass(id) => id in s.passes
  }

  function Close(closes: seq<nat>, c: Conn): seq<nat>
    requires c < |closes|
  {
    closes[c := closes[c] + 1]
  }

  ghost function Apply(s: System, a: Action): System
    requires Enabled(s, a)
  {
    match a
    case Begin(config) => s.(phase := Opening(config, map[], map[], {}))
    case OpenNext(succeeds) =>
      var p := s.phase;
      var d := p.todo[0];
      if Keeps(s.running, s.defs, d) then
        s.(phase := Opening(p.todo[1..], p.next[d.name := s.running[d.name]], p.defs[d.name := d], p.acquired))
      else if !succeeds then s.(phase := Failing(p.acquired))
      else
        var c := |s.closes|;
        s.(closes := s.closes + [0],
           phase := Opening(p.todo[1..], p.next[d.name := c], p.defs[d.name := d], p.acquired + {c}))
    case CloseFailed(c) => s.(closes := Close(s.closes, c), phase := Failing(s.phase.left - {c}))
    case Refused => s.(phase := Quiet)
    case Drain => s.(ticking := false, phase := Draining(s.phase.next, s.phase.defs, s.ticking))
    case Swap => s.(sched := s.phase.next, ticking := s.phase.wasRunning,
                    phase := Closing(s.phase.next, s.phase.defs, Leftover(s.running, s.phase.next)))
    case CloseOld(c) => s.(closes := Close(s.closes, c), phase := s.phase.(left := s.phase.left - {c}))
    case Publish => s.(running := s.phase.next, defs := s.phase.defs, phase := Quiet)
    case StartTicking => s.(ticking := true)
    case StartPass(id) => s.(passes := s.passes[id := s.sched])
    case EndPass(id) => s.(passes := s.passes - {id})
  }

  ghost predicate Runs(s: System, actions: seq<Action>, t: System)
    decreases |actions|
  {
    if actions == [] then s == t
    else Enabled(s, actions[0]) && Runs(Apply(s, actions[0]), actions[1..], t)
  }

  function Start(): System {
    System(map[], map[], map[], false, map[], [], Quiet)
  }

  // What every run keeps.

  /** The connections that should be open, phase by phase. */
  ghost function Live(s: System): set<Conn> {
    match s.phase
    case Quiet => s.running.Values
    case Opening(_, next, _, _) => s.running.Values + next.Values
    case Failing(left) => s.running.Values + left
    case Draining(next, _, _) => s.running.Values + next.Values
    case Closing(next, _, left) => next.Values + left
  }

  /** Every connection ever opened is live and open, or was closed exactly once. */
  ghost predicate Accounted(s: System) {
    && (forall c :: c in Live(s) ==> c < |s.closes|)
    && (forall c :: 0 <= c < |s.closes| ==> s.closes[c] == if c in Live(s) then 0 else 1)
  }

  /** A connection is in the next configuration under its own name or was acquired for it. */
  ghost predicate Fits(running: Open, next: Open) {
    && OnePerName(next)
    && forall n :: n in next ==> next[n] !in running.Values || (n in running && running[n] == next[n])
  }

  /** What a reload has gathered so far is its own or kept, and names nothing twice. */
  ghost predicate Prepared(running: Open, todo: seq<Def>, next: Open, acquired: set<Conn>) {
    && Fits(running, next) && DistinctNames(todo)
    && (forall i :: 0 <= i < |todo| ==> todo[i].name !in next)
    && acquired <= next.Values && acquired !! running.Values
    && (forall c :: c in next.Values ==> c in acquired || c in running.Values)
  }

  ghost predicate Staged(s: System) {
    match s.phase
    case Quiet => true
    case Opening(todo, next, _, acquired) => Prepared(s.running, todo, next, acquired)
    case Failing(left) => left !! s.running.Values
    case Draining(next, _, _) => Fits(s.running, next)
    case Closing(next, _, left) => OnePerName(next) && left !! next.Values
  }

  /** Evaluations run on one configuration at a time, and none is left when it is swapped. */
  ghost predicate Passing(s: System) {
    && (s.sched == if s.phase.Closing? then s.phase.next else s.running)
    && (forall id :: id in s.passes ==> s.passes[id] == s.sched)
    && (!s.ticking && !s.phase.Draining? ==> s.passes == map[])
  }

  ghost predicate Inv(s: System) {
    && OnePerName(s.running) && s.running.Keys == s.defs.Keys
    && (s.phase.Opening? ==> s.phase.next.Keys == s.phase.defs.Keys)
    && (s.phase.Draining? ==> s.phase.next.Keys == s.phase.defs.Keys)
    && (s.phase.Closing? ==> s.phase.next.Keys == s.phase.defs.Keys)
    && Accounted(s) && Staged(s) && Passing(s)
  }

  /** No pass in flight holds a closed connection. */
  ghost predicate Safe(s: System) {
    forall id, n :: id in s.passes && n in s.passes[id] ==> IsOpen(s, s.passes[id][n])
  }

  ghost predicate IsOpen(s: System, c: Conn) {
    c < |s.closes| && s.closes[c] == 0
  }

  lemma InvIsSafe(s: System)
    requires Inv(s)
    ensures Safe(s)
  {
    forall id, n | id in s.passes && n in s.passes[id] ensures IsOpen(s, s.passes[id][n]) {
      assert s.passes[id] == s.sched;
      assert s.sched[n] in Live(s);
    }
  }

  lemma ValuesUpdate(m: Open, n: string, c: Conn)
    requires n !in m
    ensures m[n := c].Values == m.Values + {c}
  {
    var m' := m[n := c];
    assert forall k :: k in m ==> m'[k] == m[k];
    assert m'[n] == c;
    assert forall x :: x in m.Values ==> exists k :: k in m && m'[k] == x;
  }

  lemma FitsExtend(running: Open, next: Open, n: string, c: Conn)
    requires Fits(running, next) && OnePerName(running) && n !in next
    requires (c !in running.Values && c !in next.Values) || Get(running, n) == Some(c)
    ensures Fits(running, next[n := c])
  {
    forall k | k in next ensures next[k] != c {
      if n in running && next[k] in running.Values {
        assert running[k] == next[k];
      } else if n in running && running[n] == c {
        assert running[n] in running.Values;
      }
    }
  }

  lemma PreparedExtend(running: Open, todo: seq<Def>, next: Open, acquired: set<Conn>, c: Conn)
    requires Prepared(running, todo, next, acquired) && OnePerName(running) && todo != []
    requires (c !in running.Values && c !in next.Values) || Get(running, todo[0].name) == Some(c)
    ensures Prepared(running, todo[1..], next[todo[0].name := c], if c in running.Values then acquired else acquired + {c})
    ensures next[todo[0].name := c].Values == next.Values + {c}
    ensures Get(running, todo[0].name) == Some(c) ==> c in running.Values
  {
    var n := todo[0].name;
    FitsExtend(running, next, n, c);
    ValuesUpdate(next, n, c);
    assert forall i :: 0 <= i < |todo[1..]| ==> todo[1..][i] == todo[i + 1];
    if Get(running, n) == Some(c) {
      assert running[n] in running.Values;
    }
    hide Fits;
  }

  lemma ReuseKeepsInv(s: System)
    requires Inv(s) && Enabled(s, OpenNext(true)) && Keeps(s.running, s.defs, s.phase.todo[0])
    ensures Inv(Apply(s, OpenNext(true)))
  {
    var p := s.phase;
    PreparedExtend(s.running, p.todo, p.next, p.acquired, s.running[p.todo[0].name]);
    assert Live(Apply(s, OpenNext(true))) == Live(s);
    hide Live, Leftover, Prepared, DistinctNames;
  }

  lemma OpenKeepsInv(s: System)
    requires Inv(s) && Enabled(s, OpenNext(true)) && !Keeps(s.running, s.defs, s.phase.todo[0])
    ensures Inv(Apply(s, OpenNext(true)))
  {
    var p := s.phase;
    var c := |s.closes|;
    assert c !in Live(s);
    assert c !in s.running.Values && c !in p.next.Values;
    PreparedExtend(s.running, p.todo, p.next, p.acquired, c);
    assert Live(Apply(s, OpenNext(true))) == Live(s) + {c};
    hide Live, Leftover, Prepared, DistinctNames;
  }

  /** What is left over is what the next configuration does not hold at all. */
  lemma LeftoverExactly(running: Open, next: Open)
    requires OnePerName(running)
    requires forall n :: n in next ==> next[n] !in running.Values || (n in running && running[n] == next[n])
    ensures Leftover(running, next) == running.Values - next.Values
  {
    forall n | n in running && Get(next, n) != Some(running[n]) ensures running[n] !in next.Values {
      forall k | k in next ensures next[k] != running[n] {
        if next[k] in running.Values {
          assert k in running && running[k] == next[k];
        }
      }
    }
    forall n | n in running && running[n] !in next.Values ensures running[n] in Leftover(running, next) {
    }
  }

  lemma SwapKeepsInv(s: System)
    requires Inv(s) && Enabled(s, Swap)
    ensures Inv(Apply(s, Swap))
  {
    var next := s.phase.next;
    LeftoverExactly(s.running, next);
    assert Live(Apply(s, Swap)) == Live(s);
  }

  lemma CloseKeepsInv(s: System, a: Action)
    requires Inv(s) && Enabled(s, a) && (a.CloseFailed? || a.CloseOld?)
    ensures Inv(Apply(s, a))
  {
    assert Live(Apply(s, a)) == Live(s) - {a.conn};
  }

  lemma ApplyKeepsInv(s: System, a: Action)
    requires Inv(s) && Enabled(s, a)
    ensures Inv(Apply(s, a))
  {
    match a {
      case OpenNext(succeeds) =>
        if Keeps(s.running, s.defs, s.phase.todo[0]) {
          ReuseKeepsInv(s);
        } else if succeeds {
          OpenKeepsInv(s);
        } else {
          assert Live(Apply(s, a)) == Live(s);
        }
      case Swap => SwapKeepsInv(s);
      case CloseFailed(c) => CloseKeepsInv(s, a);
      case CloseOld(c) => CloseKeepsInv(s, a);
      case Publish =>
        assert Live(Apply(s, a)) == Live(s);
      case Refused =>
        assert Live(Apply(s, a)) == Live(s);
      case Begin(_) =>
        assert Live(Apply(s, a)) == Live(s);
      case Drain =>
        assert Live(Apply(s, a)) == Live(s);
      case _ =>
        assert Live(Apply(s, a)) == Live(s);
    }
  }

  /** Over any run of reloads and evaluations: no pass ever holds a closed connection, none is
      closed twice, and between reloads exactly the running ones are open. */
  lemma {:induction false} EveryRunIsSafe(s: System, actions: seq<Action>, t: System)
    requires Inv(s) && Runs(s, actions, t)
    ensures Inv(t) && Safe(t)
    ensures forall c :: 0 <= c < |t.closes| ==> t.closes[c] <= 1
    ensures t.phase.Quiet? ==> forall c :: 0 <= c < |t.closes| ==> (t.closes[c] == 0 <==> c in t.running.Values)
    decreases |actions|
  {
    if actions == [] {
      InvIsSafe(s);
    } else {
      ApplyKeepsInv(s, actions[0]);
      EveryRunIsSafe(Apply(s, actions[0]), actions[1..], t);
    }
  }

  lemma StartInv()
    ensures Inv(Start())
  {
  }

  /** Until a reload publishes, and always when it is refused, the running configuration, what
      the scheduler hands out before the swap, and every running connection are untouched. */
  ghost predicate Untouched(s: System, t: System) {
    && t.running == s.running && t.defs == s.defs && t.sched == s.sched
    && |s.closes| <= |t.closes|
    && forall c :: c in s.running.Values && c < |s.closes| ==> t.closes[c] == s.closes[c]
  }

  /** The steps a refused reload takes, with evaluations going on beside it. */
  predicate BeforeSwap(a: Action) {
    !a.Swap? && !a.CloseOld? && !a.Publish?
  }

  lemma StepTouchesNothing(s: System, a: Action)
    requires Inv(s) && !s.phase.Closing? && Enabled(s, a) && BeforeSwap(a)
    ensures Untouched(s, Apply(s, a)) && !Apply(s, a).phase.Closing?
  {
    if a.CloseFailed? {
      NotRunning(s, a.conn);
    }
    hide Inv, Leftover;
  }

  lemma NotRunning(s: System, c: Conn)
    requires Inv(s) && s.phase.Failing? && c in s.phase.left
    ensures c !in s.running.Values
  {
    hide Accounted, Passing;
  }

  lemma UntouchedTransitive(s: System, m: System, t: System)
    requires Untouched(s, m) && Untouched(m, t)
    ensures Untouched(s, t)
  {
  }

  lemma {:induction false} RefusedReloadTouchesNothing(s: System, actions: seq<Action>, t: System)
    requires Inv(s) && !s.phase.Closing? && Runs(s, actions, t)
    requires forall i :: 0 <= i < |actions| ==> BeforeSwap(actions[i])
    ensures Untouched(s, t) && !t.phase.Closing?
    decreases |actions|
  {
    if actions != [] {
      StepTouchesNothing(s, actions[0]);
      ApplyKeepsInv(s, actions[0]);
      assert forall i :: 0 <= i < |actions[1..]| ==> actions[1..][i] == actions[i + 1];
      hide Inv, Untouched, Enabled, Apply;
      RefusedReloadTouchesNothing(Apply(s, actions[0]), actions[1..], t);
      UntouchedTransitive(s, Apply(s, actions[0]), t);
    }
  }

  // One reload gathers what its own code does.

  /** What has been opened for the next configuration. */
  ghost function Acquired(next: Open, acquired: set<Conn>): Open {
    map n | n in next && next[n] in acquired :: next[n]
  }

  /** A reload that has been through the sources in `done`, in the terms of the code's own loop. */
  ghost predicate GatheredBy(s: System, done: seq<Def>) {
    s.phase.Opening? ==>
      Gathered(done, s.running, s.defs, s.phase.next, Acquired(s.phase.next, s.phase.acquired), s.phase.defs)
  }

  predicate Gathers(a: Action) {
    a.OpenNext? || a.StartTicking? || a.StartPass? || a.EndPass?
  }

  lemma OpenNextGathers(s: System, done: seq<Def>, succeeds: bool)
    requires Inv(s) && Enabled(s, OpenNext(succeeds)) && GatheredBy(s, done) && NewName(done, s.phase.todo[0])
    ensures GatheredBy(Apply(s, OpenNext(succeeds)), done + [s.phase.todo[0]])
  {
    hide Inv, Gathered, Keeps, Acquired;
    ReadyToOpen(s);
    var p := s.phase;
    var d := p.todo[0];
    var opening := Acquired(p.next, p.acquired);
    if Keeps(s.running, s.defs, d) {
      KeptRuns(s, d);
      var q := s.running[d.name];
      AcquiredStands(p.next, p.acquired, d.name, q);
      GatheredMore<Conn>(done, d, s.running, s.defs, p.next, opening, p.defs, opening, q);
    } else if succeeds {
      var c: Conn := |s.closes|;
      AcquiredMore(p.next, p.acquired, d.name, c);
      GatheredMore<Conn>(done, d, s.running, s.defs, p.next, opening, p.defs, opening[d.name := c], c);
    }
  }

  lemma ReadyToOpen(s: System)
    requires Inv(s) && s.phase.Opening? && s.phase.todo != []
    ensures s.phase.todo[0].name !in s.phase.next && s.phase.acquired !! s.running.Values
    ensures forall n :: n in s.phase.next ==> s.phase.next[n] != |s.closes|
  {
    forall n | n in s.phase.next ensures s.phase.next[n] != |s.closes| {
      assert s.phase.next[n] in Live(s);
    }
  }

  lemma KeptRuns(s: System, d: Def)
    requires Keeps(s.running, s.defs, d)
    ensures d.name in s.running && s.running[d.name] in s.running.Values
  {
  }

  lemma AcquiredStands(next: Open, acquired: set<Conn>, n: string, c: Conn)
    requires n !in next && c !in acquired
    ensures Acquired(next[n := c], acquired) == Acquired(next, acquired)
  {
  }

  lemma AcquiredMore(next: Open, acquired: set<Conn>, n: string, c: Conn)
    requires n !in next && forall k :: k in next ==> next[k] != c
    ensures Acquired(next[n := c], acquired + {c}) == Acquired(next, acquired)[n := c]
    ensures forall k :: k in Acquired(next, acquired) ==> Acquired(next, acquired)[k] != c
  {
  }

  lemma OtherStepGathers(s: System, a: Action, done: seq<Def>)
    requires Enabled(s, a) && Gathers(a) && !a.OpenNext? && GatheredBy(s, done)
    ensures GatheredBy(Apply(s, a), done) && Apply(s, a).phase == s.phase
  {
    hide Gathered;
  }

  lemma NextIsNew(done: seq<Def>, todo: seq<Def>)
    requires todo != [] && DistinctNames(done + todo)
    ensures NewName(done, todo[0]) && DistinctNames((done + [todo[0]]) + todo[1..])
  {
    var all := done + todo;
    assert all[|done|] == todo[0];
    assert forall j :: 0 <= j < |done| ==> all[j] == done[j];
    assert (done + [todo[0]]) + todo[1..] == all;
  }

  /** However evaluations come between its steps, a reload that has opened everything has gathered
      what the code's loop over the same sources does. */
  lemma {:induction false} ReloadGathers(s: System, actions: seq<Action>, t: System, done: seq<Def>)
    requires Inv(s) && Runs(s, actions, t) && (forall i :: 0 <= i < |actions| ==> Gathers(actions[i]))
    requires s.phase.Opening? && DistinctNames(done + s.phase.todo) && GatheredBy(s, done)
    ensures t.phase.Opening? && t.phase.todo == [] ==> GatheredBy(t, done + s.phase.todo)
    decreases |actions|
  {
    hide Inv, GatheredBy, DistinctNames, NewName;
    if actions == [] {
      assert s.phase.todo == [] ==> done + s.phase.todo == done;
    } else {
      var a := actions[0];
      ApplyKeepsInv(s, a);
      assert forall i :: 0 <= i < |actions[1..]| ==> actions[1..][i] == actions[i + 1];
      var next := Apply(s, a);
      if a.OpenNext? {
        var todo := s.phase.todo;
        NextIsNew(done, todo);
        assert (done + [todo[0]]) + todo[1..] == done + todo;
        OpenNextGathers(s, done, a.succeeds);
        if next.phase.Opening? {
          ReloadGathers(next, actions[1..], t, done + [todo[0]]);
        } else {
          StaysFailing(next, actions[1..], t);
        }
      } else {
        OtherStepGathers(s, a, done);
        ReloadGathers(next, actions[1..], t, done);
      }
    }
  }

  lemma {:induction false} StaysFailing(s: System, actions: seq<Action>, t: System)
    requires s.phase.Failing? && Runs(s, actions, t) && (forall i :: 0 <= i < |actions| ==> Gathers(actions[i]))
    ensures t.phase.Failing?
    decreases |actions|
  {
    if actions != [] {
      assert forall i :: 0 <= i < |actions[1..]| ==> actions[1..][i] == actions[i + 1];
      StaysFailing(Apply(s, actions[0]), actions[1..], t);
    }
  }

  /** From the start of a reload. */
  lemma EveryReloadGathers(s: System, config: seq<Def>, actions: seq<Action>, t: System)
    requires Inv(s) && Enabled(s, Begin(config)) && Runs(Apply(s, Begin(config)), actions, t)
    requires forall i :: 0 <= i < |actions| ==> Gathers(actions[i])
    ensures t.phase.Opening? && t.phase.todo == [] ==>
      Gathered(config, s.running, s.defs, t.phase.next, Acquired(t.phase.next, t.phase.acquired), t.phase.defs)
  {
    ApplyKeepsInv(s, Begin(config));
    var b := Apply(s, Begin(config));
    assert [] + config == config;
    ReloadGathers(b, actions, t, []);
    RunningStands(b, actions, t);
    hide Runs, Inv, Gathered;
  }

  lemma {:induction false} RunningStands(s: System, actions: seq<Action>, t: System)
    requires Runs(s, actions, t) && (forall i :: 0 <= i < |actions| ==> Gathers(actions[i]))
    ensures t.running == s.running && t.defs == s.defs
    decreases |actions|
  {
    if actions != [] {
      assert forall i :: 0 <= i < |actions[1..]| ==> actions[1..][i] == actions[i + 1];
      StepStands(s, actions[0]);
      hide Enabled, Apply;
      RunningStands(Apply(s, actions[0]), actions[1..], t);
    }
  }

  lemma StepStands(s: System, a: Action)
    requires Enabled(s, a) && Gathers(a)
    ensures Apply(s, a).running == s.running && Apply(s, a).defs == s.defs
  {
    match a
    case OpenNext(_) =>
    case StartTicking =>
    case StartPass(_) =>
    case EndPass(_) =>
  }
}
