/** Handing the alert state of one configuration over to the next. */
module Carry {
  import opened Options

  /** A rule of the ruleset, as far as keying its evaluator goes. */
  datatype Rule = Rule(path: string, group: string, alert: string, sources: seq<string>)

  datatype Key = Key(group: string, alert: string, occurrence: nat)

  /** One group's rules that some source matched, in file order. */
  datatype Group = Group(id: string, rules: seq<Rule>)

  predicate Matched(r: Rule) {
    r.sources != []
  }

  /** How many matched rules before the i-th share its alert name. */
  function Earlier(rules: seq<Rule>, i: nat, alert: string): nat
    requires i <= |rules|
  {
    if i == 0 then 0 else Earlier(rules, i - 1, alert) + if Matched(rules[i - 1]) && rules[i - 1].alert == alert then 1 else 0
  }

  function KeyOf(g: Group, i: nat): Key
    requires i < |g.rules|
  {
    Key(g.id, g.rules[i].alert, Earlier(g.rules, i, g.rules[i].alert))
  }

  /** What a Go map of counters answers, zero where it has no entry. */
  function Seen(seen: map<string, nat>, alert: string): nat {
    if alert in seen then seen[alert] else 0
  }

  /** The keys one group's evaluators are stored under. */
  method AssignKeys(g: Group) returns (keys: seq<Option<Key>>)
    ensures |keys| == |g.rules|
    ensures forall i :: 0 <= i < |keys| ==> keys[i] == if Matched(g.rules[i]) then Some(KeyOf(g, i)) else None
  {
    hide Earlier;
    var seen: map<string, nat> := map[];
    keys := [];
    NoneBefore(g.rules);
    for i := 0 to |g.rules|
      invariant |keys| == i
      invariant forall j :: 0 <= j < i ==> keys[j] == if Matched(g.rules[j]) then Some(KeyOf(g, j)) else None
      invariant forall a :: Seen(seen, a) == Earlier(g.rules, i, a)
    {
      var r := g.rules[i];
      ghost var was := seen;
      forall a ensures Seen(was, a) == Earlier(g.rules, i + 1, a) - if Matched(r) && r.alert == a then 1 else 0 {
        EarlierMore(g.rules, i, a);
      }
      if r.sources == [] {
        keys := keys + [None];
        continue;
      }
      var n := Seen(seen, r.alert);
      keys := keys + [Some(Key(g.id, r.alert, n))];
      seen := seen[r.alert := n + 1];
      assert forall a :: Seen(seen, a) == Seen(was, a) + if r.alert == a then 1 else 0;
    }
  }

  lemma NoneBefore(rules: seq<Rule>)
    ensures forall a :: Earlier(rules, 0, a) == 0
  {
  }

  lemma EarlierMore(rules: seq<Rule>, i: nat, alert: string)
    requires i < |rules|
    ensures Earlier(rules, i + 1, alert) == Earlier(rules, i, alert) + if Matched(rules[i]) && rules[i].alert == alert then 1 else 0
  {
  }

  lemma {:induction false} EarlierGrows(rules: seq<Rule>, i: nat, j: nat, alert: string)
    requires i <= j <= |rules|
    ensures Earlier(rules, i, alert) <= Earlier(rules, j, alert)
    ensures (exists k :: i <= k < j && Matched(rules[k]) && rules[k].alert == alert) ==> Earlier(rules, i, alert) < Earlier(rules, j, alert)
    decreases j
  {
    if i < j {
      EarlierGrows(rules, i, j - 1, alert);
    }
  }

  ghost predicate DistinctIds(groups: seq<Group>) {
    forall g, h :: 0 <= g < h < |groups| ==> groups[g].id != groups[h].id
  }

  ghost predicate At(groups: seq<Group>, g: int, i: int) {
    0 <= g < |groups| && 0 <= i < |groups[g].rules| && Matched(groups[g].rules[i])
  }

  /** Two evaluators never share a key, even when two rules of a group share a name. */
  lemma KeysAreDistinct(groups: seq<Group>, g: int, i: int, h: int, j: int)
    requires DistinctIds(groups) && At(groups, g, i) && At(groups, h, j)
    requires KeyOf(groups[g], i) == KeyOf(groups[h], j)
    ensures g == h && i == j
  {
    if g == h {
      var rules := groups[g].rules;
      if i < j {
        EarlierGrows(rules, i, j, rules[i].alert);
      } else if j < i {
        EarlierGrows(rules, j, i, rules[j].alert);
      }
    }
  }

  /** The alert state of one rule against one source. Only which one it is matters here. */
  class State {
    constructor ()
    {
    }
  }

  /** The states of every evaluator, by source. */
  type States = map<Key, map<string, State>>

  predicate Holds(m: States, k: Key, source: string) {
    k in m && source in m[k]
  }

  /** Whether a state is the same alert as a reloaded rule's. */
  type Adopts = (State, Rule, string) -> bool

  predicate Inherits(prev: States, adopts: Adopts, r: Rule, k: Key, source: string) {
    Holds(prev, k, source) && adopts(prev[k][source], r, source)
  }

  /** An evaluator's states: those its predecessor held and could hand over, and new ones. */
  ghost predicate Equipped(mine: map<string, State>, prev: States, seen: set<State>, adopts: Adopts, r: Rule, k: Key) {
    && (forall s :: s in mine <==> s in r.sources)
    && (forall s :: s in mine ==> if Inherits(prev, adopts, r, k, s) then mine[s] == prev[k][s] else mine[s] !in seen)
    && (forall s, t :: s in mine && t in mine && mine[s] == mine[t] && mine[s] !in seen ==> s == t)
  }

  /** An evaluator to be built: its key and its rule. */
  datatype Entry = Entry(key: Key, rule: Rule)

  /** The evaluators of a group's first `n` rules. */
  ghost function GroupEntries(g: Group, n: nat): seq<Entry>
    requires n <= |g.rules|
  {
    if n == 0 then []
    else GroupEntries(g, n - 1) + if Matched(g.rules[n - 1]) then [Entry(KeyOf(g, n - 1), g.rules[n - 1])] else []
  }

  /** The evaluators of the first `n` groups. */
  ghost function Entries(groups: seq<Group>, n: nat): seq<Entry>
    requires n <= |groups|
  {
    if n == 0 then [] else Entries(groups, n - 1) + GroupEntries(groups[n - 1], |groups[n - 1].rules|)
  }

  /** What stands once the evaluators of `done` have been built. `seen` is every state there
      was before. */
  ghost predicate Built(done: seq<Entry>, prev: States, next: States, seen: set<State>, adopts: Adopts) {
    && (forall k :: k in next ==> exists e :: e in done && e.key == k)
    && (forall e :: e in done ==> e.key in next && Equipped(next[e.key], prev, seen, adopts, e.rule, e.key))
    && NewOnce(next, seen)
  }

  /** No new state is held twice. */
  ghost predicate NewOnce(next: States, seen: set<State>) {
    forall k, s, l, t :: Holds(next, k, s) && Holds(next, l, t) && next[k][s] == next[l][t] && next[k][s] !in seen ==> k == l && s == t
  }

  ghost function Held(m: States): set<State> {
    set k, s | k in m && s in m[k] :: m[k][s]
  }

  /** A new state for every source. */
  method NewStates(sources: seq<string>, ghost seen: set<State>) returns (mine: map<string, State>)
    ensures forall s :: s in mine <==> s in sources
    ensures forall s :: s in mine ==> fresh(mine[s]) && mine[s] !in seen
    ensures forall s, t :: s in mine && t in mine && mine[s] == mine[t] ==> s == t
  {
    mine := map[];
    for i := 0 to |sources|
      invariant forall s :: s in mine <==> s in sources[..i]
      invariant forall s :: s in mine ==> fresh(mine[s]) && mine[s] !in seen
      invariant forall s, t :: s in mine && t in mine && mine[s] == mine[t] ==> s == t
    {
      var state := new State();
      mine := mine[sources[i] := state];
    }
  }

  /** One rule's evaluator, with the states it takes over. */
  method Equip(r: Rule, k: Key, prev: States, adopts: Adopts, ghost seen: set<State>, ghost held: set<State>)
    returns (mine: map<string, State>)
    requires Held(prev) <= seen
    ensures Equipped(mine, prev, seen, adopts, r, k)
    ensures forall s :: s in mine && mine[s] !in seen ==> fresh(mine[s]) && mine[s] !in held
  {
    hide Held;
    mine := NewStates(r.sources, seen + held);
    ghost var made := mine;
    for i := 0 to |r.sources|
      invariant mine.Keys == made.Keys
      invariant forall s :: s in mine ==>
        mine[s] == if s in r.sources[..i] && Inherits(prev, adopts, r, k, s) then prev[k][s] else made[s]
    {
      var source := r.sources[i];
      if k in prev && source in prev[k] && adopts(prev[k][source], r, source) {
        mine := mine[source := prev[k][source]];
      }
    }
    Overtaken(made, mine, r, k, prev, adopts, seen);
  }

  lemma Overtaken(made: map<string, State>, mine: map<string, State>, r: Rule, k: Key, prev: States, adopts: Adopts, seen: set<State>)
    requires Held(prev) <= seen && (forall s :: s in made <==> s in r.sources) && mine.Keys == made.Keys
    requires forall s :: s in made ==> made[s] !in seen
    requires forall s, t :: s in made && t in made && made[s] == made[t] ==> s == t
    requires forall s :: s in mine ==> mine[s] == if Inherits(prev, adopts, r, k, s) then prev[k][s] else made[s]
    ensures Equipped(mine, prev, seen, adopts, r, k)
    ensures forall s :: s in mine && mine[s] !in seen ==> mine[s] == made[s]
  {
    forall s | s in mine && Inherits(prev, adopts, r, k, s) ensures prev[k][s] in seen {
      assert prev[k][s] in Held(prev);
    }
  }

  /** Builds the evaluators of a configuration, handing over what the previous ones held. */
  method Build(groups: seq<Group>, prev: States, adopts: Adopts, ghost seen: set<State>) returns (next: States)
    requires DistinctIds(groups) && Held(prev) <= seen
    ensures Built(Entries(groups, |groups|), prev, next, seen, adopts)
    ensures forall state :: state in Held(next) && state !in seen ==> fresh(state)
  {
    hide Built, Equipped, Held, DistinctIds, Entries, GroupEntries;
    next := map[];
    NothingBuilt(prev, seen, adopts);
    NoEntries(groups);
    for g := 0 to |groups|
      invariant Built(Entries(groups, g), prev, next, seen, adopts)
      invariant forall state :: state in Held(next) && state !in seen ==> fresh(state)
    {
      var keys := AssignKeys(groups[g]);
      ghost var before := Entries(groups, g);
      NextEntries(groups, g);
      for i := 0 to |groups[g].rules|
        invariant Built(before + GroupEntries(groups[g], i), prev, next, seen, adopts)
        invariant forall state :: state in Held(next) && state !in seen ==> fresh(state)
      {
        EntriesMore(before, groups[g], i);
        if keys[i].Some? {
          var mine := Equip(groups[g].rules[i], keys[i].value, prev, adopts, seen, Held(next));
          NewKey(groups, g, i);
          OneMore(before + GroupEntries(groups[g], i), Entry(keys[i].value, groups[g].rules[i]), prev, next, seen, adopts, mine);
          HeldMore(next, keys[i].value, mine);
          next := next[keys[i].value := mine];
        }
      }
    }
  }

  lemma NoEntries(groups: seq<Group>)
    ensures Entries(groups, 0) == []
  {
  }

  lemma NextEntries(groups: seq<Group>, n: nat)
    requires n < |groups|
    ensures Entries(groups, n) + GroupEntries(groups[n], 0) == Entries(groups, n)
    ensures Entries(groups, n) + GroupEntries(groups[n], |groups[n].rules|) == Entries(groups, n + 1)
  {
  }

  lemma EntriesMore(before: seq<Entry>, g: Group, i: nat)
    requires i < |g.rules|
    ensures Matched(g.rules[i]) ==> before + GroupEntries(g, i + 1) == before + GroupEntries(g, i) + [Entry(KeyOf(g, i), g.rules[i])]
    ensures !Matched(g.rules[i]) ==> GroupEntries(g, i + 1) == GroupEntries(g, i)
  {
    Assoc(before, GroupEntries(g, i), [Entry(KeyOf(g, i), g.rules[i])]);
  }

  lemma NothingBuilt(prev: States, seen: set<State>, adopts: Adopts)
    ensures Built([], prev, map[], seen, adopts) && Held(map[]) == {}
  {
  }

  lemma HeldMore(next: States, k: Key, mine: map<string, State>)
    ensures forall state :: state in Held(next[k := mine]) ==> state in Held(next) || state in mine.Values
  {
  }

  /** Every evaluator of the first `n` groups and `m` rules is for a rule among them. */
  lemma {:induction false} EntryFrom(groups: seq<Group>, n: nat, e: Entry)
    requires n <= |groups| && e in Entries(groups, n)
    ensures exists g, i :: At(groups, g, i) && g < n && e.key == KeyOf(groups[g], i)
  {
    if e in Entries(groups, n - 1) {
      EntryFrom(groups, n - 1, e);
    } else {
      var i := GroupEntryFrom(groups[n - 1], |groups[n - 1].rules|, e);
      assert At(groups, n - 1, i);
    }
  }

  lemma {:induction false} GroupEntryFrom(g: Group, n: nat, e: Entry) returns (i: nat)
    requires n <= |g.rules| && e in GroupEntries(g, n)
    ensures i < n && Matched(g.rules[i]) && e.key == KeyOf(g, i)
  {
    if e in GroupEntries(g, n - 1) {
      i := GroupEntryFrom(g, n - 1, e);
    } else {
      i := n - 1;
    }
  }

  lemma NewKey(groups: seq<Group>, g: nat, i: nat)
    requires DistinctIds(groups) && At(groups, g, i)
    ensures forall e :: e in Entries(groups, g) + GroupEntries(groups[g], i) ==> e.key != KeyOf(groups[g], i)
  {
    forall e | e in Entries(groups, g) + GroupEntries(groups[g], i) ensures e.key != KeyOf(groups[g], i) {
      if e in Entries(groups, g) {
        EntryFrom(groups, g, e);
        var h, j :| At(groups, h, j) && h < g && e.key == KeyOf(groups[h], j);
        assert groups[h].id != groups[g].id;
      } else {
        var j := GroupEntryFrom(groups[g], i, e);
        if e.key == KeyOf(groups[g], i) {
          KeysAreDistinct(groups, g, i, g, j);
        }
      }
    }
  }

  lemma OneMore(done: seq<Entry>, e: Entry, prev: States, next: States, seen: set<State>, adopts: Adopts, mine: map<string, State>)
    requires Built(done, prev, next, seen, adopts) && Equipped(mine, prev, seen, adopts, e.rule, e.key)
    requires forall x :: x in done ==> x.key != e.key
    requires forall s :: s in mine && mine[s] !in seen ==> mine[s] !in Held(next)
    ensures Built(done + [e], prev, next[e.key := mine], seen, adopts)
  {
    var next' := next[e.key := mine];
    assert e.key !in next;
    OneMoreNewOnce(e, prev, next, seen, adopts, mine);
    hide Equipped, NewOnce;
    forall k | k in next' ensures exists x :: x in done + [e] && x.key == k {
      if k == e.key {
        assert e in done + [e];
      } else {
        var x :| x in done && x.key == k;
        assert x in done + [e];
      }
    }
  }

  lemma OneMoreNewOnce(e: Entry, prev: States, next: States, seen: set<State>, adopts: Adopts, mine: map<string, State>)
    requires NewOnce(next, seen) && Equipped(mine, prev, seen, adopts, e.rule, e.key) && e.key !in next
    requires forall s :: s in mine && mine[s] !in seen ==> mine[s] !in Held(next)
    ensures NewOnce(next[e.key := mine], seen)
  {
    var next' := next[e.key := mine];
    forall k, s, l, t | Holds(next', k, s) && Holds(next', l, t) && next'[k][s] == next'[l][t] && next'[k][s] !in seen
      ensures k == l && s == t {
      assert k != e.key ==> Holds(next, k, s) && next[k][s] in Held(next);
      assert l != e.key ==> Holds(next, l, t) && next[l][t] in Held(next);
    }
  }

  // A run of reloads.

  /** One reload: the configuration it loads, and which states are the same alert under it. */
  datatype Load = Load(groups: seq<Group>, adopts: Adopts)

  /** The states after every reload so far, and every state there has ever been. */
  datatype Moment = Moment(states: States, seen: set<State>)

  ghost predicate Reloaded(a: Moment, load: Load, b: Moment) {
    && DistinctIds(load.groups)
    && Built(Entries(load.groups, |load.groups|), a.states, b.states, a.seen, load.adopts)
    && b.seen == a.seen + Held(b.states)
  }

  ghost predicate Follows(run: seq<Moment>, loads: seq<Load>) {
    && |run| == |loads| + 1
    && run[0] == Moment(map[], {})
    && forall i :: 0 <= i < |loads| ==> Reloaded(run[i], loads[i], run[i + 1])
  }

  /** No two evaluators hold the same state, and none holds one for two sources. */
  ghost predicate Unshared(m: States) {
    forall k, s, l, t :: Holds(m, k, s) && Holds(m, l, t) && m[k][s] == m[l][t] ==> k == l && s == t
  }

  /** A state held after a reload is new, or was held before it by the same evaluator for the
      same source. */
  lemma StaysOrIsNew(a: Moment, load: Load, b: Moment, k: Key, s: string)
    requires Reloaded(a, load, b) && Holds(b.states, k, s)
    ensures b.states[k][s] in a.seen ==> Holds(a.states, k, s) && a.states[k][s] == b.states[k][s]
  {
    var e :| e in Entries(load.groups, |load.groups|) && e.key == k;
    assert Equipped(b.states[k], a.states, a.seen, load.adopts, e.rule, k);
    hide Entries;
  }

  lemma ReloadKeepsUnshared(a: Moment, load: Load, b: Moment)
    requires Reloaded(a, load, b) && Unshared(a.states)
    ensures Unshared(b.states)
  {
    var m := b.states;
    forall k, s, l, t | Holds(m, k, s) && Holds(m, l, t) && m[k][s] == m[l][t] ensures k == l && s == t {
      StaysOrIsNew(a, load, b, k, s);
      StaysOrIsNew(a, load, b, l, t);
      hide Entries, Equipped;
    }
  }

  /** Over any run of reloads, no two evaluators ever hold the same state. */
  lemma {:induction false} NeverShared(run: seq<Moment>, loads: seq<Load>, i: nat)
    requires Follows(run, loads) && i < |run|
    ensures Unshared(run[i].states)
  {
    hide Reloaded;
    if i > 0 {
      NeverShared(run, loads, i - 1);
      ReloadKeepsUnshared(run[i - 1], loads[i - 1], run[i]);
      hide Unshared;
    }
  }

  lemma {:induction false} SeenGrows(run: seq<Moment>, loads: seq<Load>, i: nat, j: nat)
    requires Follows(run, loads) && i <= j < |run|
    ensures run[i].seen <= run[j].seen
    ensures i > 0 ==> Held(run[i].states) <= run[i].seen
    decreases j
  {
    if i < j {
      SeenGrows(run, loads, i, j - 1);
      assert Reloaded(run[j - 1], loads[j - 1], run[j]);
    } else if i > 0 {
      assert Reloaded(run[i - 1], loads[i - 1], run[i]);
    }
    hide Built;
  }

  /** A state belongs to one evaluator and one source for as long as it lives, and one that was
      dropped never comes back. */
  lemma {:induction false} OneOwnerForLife(run: seq<Moment>, loads: seq<Load>, i: nat, j: nat, k: Key, s: string, l: Key, t: string)
    requires Follows(run, loads) && i <= j < |run|
    requires Holds(run[i].states, k, s) && Holds(run[j].states, l, t) && run[i].states[k][s] == run[j].states[l][t]
    ensures k == l && s == t
    ensures forall m :: i <= m <= j ==> Holds(run[m].states, k, s) && run[m].states[k][s] == run[i].states[k][s]
    decreases j
  {
    hide Reloaded, Held;
    if i == j {
      NeverShared(run, loads, i);
    } else {
      SeenGrows(run, loads, i, j - 1);
      HeldIn(run[i].states, k, s);
      StaysOrIsNew(run[j - 1], loads[j - 1], run[j], l, t);
      OneOwnerForLife(run, loads, i, j - 1, k, s, l, t);
    }
  }

  lemma HeldIn(m: States, k: Key, s: string)
    requires Holds(m, k, s)
    ensures m != map[] && m[k][s] in Held(m)
  {
  }

  /** A key says whose rule it is and which of the group's matched rules of that name. */
  lemma {:induction false} OccurrenceExactly(g: Group, i: nat)
    requires i < |g.rules|
    ensures KeyOf(g, i).group == g.id && KeyOf(g, i).alert == g.rules[i].alert
    ensures KeyOf(g, i).occurrence == |set k | 0 <= k < i && g.rules[k].sources != [] && g.rules[k].alert == g.rules[i].alert|
  {
    EarlierCounts(g.rules, i, g.rules[i].alert);
  }

  lemma {:induction false} EarlierCounts(rules: seq<Rule>, i: nat, alert: string)
    requires i <= |rules|
    ensures Earlier(rules, i, alert) == |set k | 0 <= k < i && rules[k].sources != [] && rules[k].alert == alert|
  {
    var all := set k | 0 <= k < i && rules[k].sources != [] && rules[k].alert == alert;
    if i > 0 {
      EarlierCounts(rules, i - 1, alert);
      var before := set k | 0 <= k < i - 1 && rules[k].sources != [] && rules[k].alert == alert;
      if rules[i - 1].sources != [] && rules[i - 1].alert == alert {
        assert all == before + {i - 1};
      } else {
        assert all == before;
      }
    } else {
      assert all == {};
    }
  }

  /** Reordering a file moves no state between rules whose names are unique in their group. */
  lemma UniqueNameIsFirst(g: Group, i: nat)
    requires i < |g.rules|
    requires forall k :: 0 <= k < |g.rules| && k != i && Matched(g.rules[k]) ==> g.rules[k].alert != g.rules[i].alert
    ensures KeyOf(g, i) == Key(g.id, g.rules[i].alert, 0)
  {
    OccurrenceExactly(g, i);
    assert (set k | 0 <= k < i && g.rules[k].sources != [] && g.rules[k].alert == g.rules[i].alert) == {};
  }

  // What a reload hands over.

  lemma {:induction false} EntryFor(groups: seq<Group>, n: nat, g: nat, i: nat)
    requires g < n <= |groups| && At(groups, g, i)
    ensures Entry(KeyOf(groups[g], i), groups[g].rules[i]) in Entries(groups, n)
  {
    if g < n - 1 {
      EntryFor(groups, n - 1, g, i);
    } else {
      GroupEntryFor(groups[g], |groups[g].rules|, i);
    }
  }

  lemma {:induction false} GroupEntryFor(g: Group, n: nat, i: nat)
    requires i < n <= |g.rules| && Matched(g.rules[i])
    ensures Entry(KeyOf(g, i), g.rules[i]) in GroupEntries(g, n)
  {
    if i < n - 1 {
      GroupEntryFor(g, n - 1, i);
    }
  }

  /** After a reload every rule with a source has its evaluator, with a state for each of its sources:
      the one held under the same key for the same source if there was one and it is the same alert,
      and otherwise one there has never been. */
  lemma CarriesExactly(a: Moment, load: Load, b: Moment, g: nat, i: nat, source: string)
    requires Reloaded(a, load, b) && At(load.groups, g, i)
    ensures var r := load.groups[g].rules[i];
            var k := KeyOf(load.groups[g], i);
            && k in b.states && (source in b.states[k] <==> source in r.sources)
            && (source in r.sources ==>
                  if k in a.states && source in a.states[k] && load.adopts(a.states[k][source], r, source)
                  then b.states[k][source] == a.states[k][source]
                  else b.states[k][source] !in a.seen)
  {
    EntryFor(load.groups, |load.groups|, g, i);
    var e := Entry(KeyOf(load.groups[g], i), load.groups[g].rules[i]);
    assert Equipped(b.states[e.key], a.states, a.seen, load.adopts, e.rule, e.key);
    hide Entries, NewOnce;
  }

  /** And there is no other. */
  lemma OnlyRulesEvaluate(a: Moment, load: Load, b: Moment, k: Key)
    requires Reloaded(a, load, b) && k in b.states
    ensures exists g, i :: At(load.groups, g, i) && KeyOf(load.groups[g], i) == k
  {
    var e :| e in Entries(load.groups, |load.groups|) && e.key == k;
    EntryFrom(load.groups, |load.groups|, e);
    hide Built;
  }
}
