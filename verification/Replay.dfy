/** Replaying a rule over its past: every window through the alert state machine, collapsed into
    the number of alerts it would have raised. */
module Replays {
  import opened Options
  import opened AlertModel
  import opened AlertStates
  import opened Snapshots
  import opened Orders
  import opened Backfill
  import opened Machine

  /** What a replay is given: the rule, and the rows of each window, oldest first. */
  datatype Past = Past(cfg: Config, hash: Labels -> Fingerprint, instants: seq<Time>, samples: seq<seq<Sample>>)

  ghost predicate Paired(p: Past) {
    |p.instants| == |p.samples| && Increasing(p.instants)
  }

  /** The state machine after the first `k` windows. */
  ghost function After(p: Past, k: nat): Model
    requires k <= |p.instants| == |p.samples|
  {
    if k == 0 then map[]
    else Next(After(p, k - 1), Rows(p.cfg, p.samples[k - 1]), p.hash, p.instants[k - 1], p.cfg)
  }

  /** One alert: a label set from one time it became active. When it
      fires again after recovering, that is another alert. */
  datatype Story = Story(labels: Labels, activeAt: Time)

  ghost function Burning(m: Model): set<Story> {
    set l | l in m && m[l].alert.phase == Firing :: Story(l, m[l].alert.activeAt)
  }

  datatype Span = Span(firedAt: Time, lastFiring: Time)

  type Table = map<Story, Span>

  ghost function Mark(entry: Option<Span>, firedAt: Time, now: Time): Span {
    if entry.Some? then entry.value.(lastFiring := now) else Span(firedAt, now)
  }

  ghost function MarkAll(t: Table, m: Model, now: Time): Table {
    map s | s in t.Keys + Burning(m) :: if s in Burning(m) then Mark(Get(t, s), m[s.labels].alert.firedAt, now) else t[s]
  }

  /** Every alert that has fired, when it first did and when it last did. */
  ghost function Spans(p: Past, k: nat): Table
    requires k <= |p.instants| == |p.samples|
  {
    if k == 0 then map[] else MarkAll(Spans(p, k - 1), After(p, k), p.instants[k - 1])
  }

  // What one evaluation can do to one label set.

  predicate In(x: Option<Inst>, phase: Phase, activeAt: Time) {
    x.Some? && x.value.alert.phase == phase && x.value.alert.activeAt == activeAt
  }

  /** An alert that fires was firing already, or fires now on a row this window returned. */
  lemma StepFires(prev: Option<Inst>, row: Option<real>, fp: Fingerprint, l: Labels, now: Time, c: Config, a: Time)
    ensures var x := Step(prev, row, fp, l, now, c);
            && (In(x, Firing, a) && !In(prev, Firing, a) ==>
                  row.Some? && x.value.alert.firedAt == now && (a == now || In(prev, Pending, a)))
            && (In(x, Firing, a) && !In(prev, Firing, a) ==> prev.None? || prev.value.alert.phase != Firing)
            && (In(x, Pending, a) ==> a == now || In(prev, Pending, a))
  {
  }

  lemma AfterAt(p: Past, k: nat, l: Labels)
    requires 1 <= k <= |p.instants| == |p.samples|
    ensures Get(After(p, k), l)
         == Step(Get(After(p, k - 1), l), Get(Rows(p.cfg, p.samples[k - 1]), l), p.hash(l), l, p.instants[k - 1], p.cfg)
  {
    hide Rows;
  }

  ghost predicate BurnsAt(p: Past, j: nat, s: Story)
    requires j < |p.instants| == |p.samples|
  {
    s in Burning(After(p, j + 1))
  }

  lemma BurningIsIn(m: Model, s: Story)
    ensures s in Burning(m) <==> In(Get(m, s.labels), Firing, s.activeAt)
  {
  }

  /** What holds of an alert's entry after `k` windows: it bounds the windows the alert fired
      at, and once an alert has fired it is never pending again. */
  ghost predicate Sound(p: Past, k: nat, s: Story, e: Option<Span>)
    requires k <= |p.instants| == |p.samples|
  {
    && (forall j :: 0 <= j < k ==> (BurnsAt(p, j, s) <==> Covers(e, p.instants[j])))
    && (e.Some? ==> Placed(p, k, s, e.value))
    && (In(Get(After(p, k), s.labels), Pending, s.activeAt) ==> k > 0 && s.activeAt <= p.instants[k - 1])
  }

  predicate Covers(e: Option<Span>, t: Time) {
    e.Some? && e.value.firedAt <= t <= e.value.lastFiring
  }

  /** A span begins and ends at a window, and its alert is past waiting. */
  ghost predicate Placed(p: Past, k: nat, s: Story, e: Span)
    requires k <= |p.instants| == |p.samples|
  {
    && k > 0 && s.activeAt <= p.instants[k - 1]
    && !In(Get(After(p, k), s.labels), Pending, s.activeAt)
    && (exists j :: 0 <= j < k && p.instants[j] == e.firedAt)
    && (exists j :: 0 <= j < k && p.instants[j] == e.lastFiring)
    && e.firedAt <= e.lastFiring
  }

  lemma MarkAllAt(t: Table, m: Model, now: Time, s: Story)
    ensures Get(MarkAll(t, m, now), s) == if s in Burning(m) then Some(Mark(Get(t, s), m[s.labels].alert.firedAt, now)) else Get(t, s)
  {
    hide Burning, Mark;
  }

  /** The table is exact: an alert was firing at a window precisely if the window lies in its span. */
  lemma {:induction false} SpansSound(p: Past, k: nat, s: Story)
    requires Paired(p) && k <= |p.instants|
    ensures Sound(p, k, s, Get(Spans(p, k), s))
  {
    if k > 0 {
      SpansSound(p, k - 1, s);
      AfterAt(p, k, s.labels);
      StepFires(Get(After(p, k - 1), s.labels), Get(Rows(p.cfg, p.samples[k - 1]), s.labels), p.hash(s.labels), s.labels,
                p.instants[k - 1], p.cfg, s.activeAt);
      BurningIsIn(After(p, k), s);
      BurningIsIn(After(p, k - 1), s);
      MarkAllAt(Spans(p, k - 1), After(p, k), p.instants[k - 1], s);
      SoundStep(p, k, s, Get(Spans(p, k - 1), s), Get(Spans(p, k), s));
    }
  }

  lemma SoundStep(p: Past, k: nat, s: Story, e: Option<Span>, e': Option<Span>)
    requires Paired(p) && 1 <= k <= |p.instants| && Sound(p, k - 1, s, e)
    requires var x := Get(After(p, k), s.labels); var prev := Get(After(p, k - 1), s.labels); var now := p.instants[k - 1];
             && (s in Burning(After(p, k)) <==> In(x, Firing, s.activeAt))
             && (s in Burning(After(p, k - 1)) <==> In(prev, Firing, s.activeAt))
             && (In(x, Firing, s.activeAt) && !In(prev, Firing, s.activeAt) ==>
                   x.value.alert.firedAt == now && (s.activeAt == now || In(prev, Pending, s.activeAt)))
             && (In(x, Pending, s.activeAt) ==> s.activeAt == now || In(prev, Pending, s.activeAt))
             && e' == if In(x, Firing, s.activeAt) then Some(Mark(e, x.value.alert.firedAt, now)) else e
    ensures Sound(p, k, s, e')
  {
    hide After, Burning;
    var now := p.instants[k - 1];
    assert BurnsAt(p, k - 1, s) <==> s in Burning(After(p, k));
    NothingBurnsFirst(p, s);
    if k >= 2 {
      assert BurnsAt(p, k - 2, s) <==> s in Burning(After(p, k - 1));
      assert p.instants[k - 2] < now;
    }
    forall j | 0 <= j < k
      ensures BurnsAt(p, j, s) <==> Covers(e', p.instants[j]) {
      assert j < k - 1 ==> p.instants[j] < now;
      assert j < k - 2 ==> p.instants[j] < p.instants[k - 2];
    }
  }

  lemma NothingBurnsFirst(p: Past, s: Story)
    requires |p.instants| == |p.samples|
    ensures s !in Burning(After(p, 0)) && !In(Get(After(p, 0), s.labels), Firing, s.activeAt)
  {
  }

  // Counting.

  /** The label sets that start to fire at the k-th window. */
  ghost function Starters(p: Past, k: nat): set<Labels>
    requires 1 <= k <= |p.instants| == |p.samples|
  {
    set l | l in After(p, k) && After(p, k)[l].alert.phase == Firing && !IsFiring(Get(After(p, k - 1), l)) :: l
  }

  predicate IsFiring(x: Option<Inst>) {
    x.Some? && x.value.alert.phase == Firing
  }

  /** How often anything started to fire. */
  ghost function Transitions(p: Past, k: nat): nat
    requires k <= |p.instants| == |p.samples|
  {
    if k == 0 then 0 else Transitions(p, k - 1) + |Starters(p, k)|
  }

  ghost function Hits(p: Past, k: nat): nat
    requires k <= |p.samples|
  {
    if k == 0 then 0 else Hits(p, k - 1) + |p.samples[k - 1]|
  }

  lemma {:induction false} ImageSize(ls: set<Labels>, m: Model, image: set<Story>)
    requires ls <= m.Keys
    requires image == set l | l in ls :: Story(l, m[l].alert.activeAt)
    ensures |image| == |ls|
  {
    if ls == {} {
      assert image == {};
    } else {
      var l :| l in ls;
      var s := Story(l, m[l].alert.activeAt);
      assert s in image;
      ImageSize(ls - {l}, m, image - {s});
    }
  }

  ghost predicate EachDistinct(p: Past, k: nat)
    requires k <= |p.samples|
  {
    forall j :: 0 <= j < k ==> DistinctRows(p.cfg, p.samples[j])
  }

  /** The new entries of the table are the label sets that started to fire. */
  lemma NewStories(p: Past, k: nat)
    requires Paired(p) && 1 <= k <= |p.instants|
    ensures Burning(After(p, k)) - Spans(p, k - 1).Keys
         == set l | l in Starters(p, k) :: Story(l, After(p, k)[l].alert.activeAt)
  {
    var m := After(p, k);
    var added := Burning(m) - Spans(p, k - 1).Keys;
    forall s: Story ensures s in added <==> s.labels in Starters(p, k) && m[s.labels].alert.activeAt == s.activeAt {
      NewStory(p, k, s);
    }
    hide *;
  }

  lemma NewStory(p: Past, k: nat, s: Story)
    requires Paired(p) && 1 <= k <= |p.instants|
    ensures s.labels in Starters(p, k) ==> s.labels in After(p, k)
    ensures s in Burning(After(p, k)) - Spans(p, k - 1).Keys
       <==> s.labels in Starters(p, k) && After(p, k)[s.labels].alert.activeAt == s.activeAt
  {
    hide After, Spans, Step, Rows, Sound, Burning;
    BurningIsIn(After(p, k), s);
    if s in Burning(After(p, k)) {
      SpansSound(p, k - 1, s);
      AfterAt(p, k, s.labels);
      StepFires(Get(After(p, k - 1), s.labels), Get(Rows(p.cfg, p.samples[k - 1]), s.labels), p.hash(s.labels), s.labels,
                p.instants[k - 1], p.cfg, s.activeAt);
      BurningIsIn(After(p, k - 1), s);
      StartedIsNew(p, k, s);
    }
  }

  lemma StartedIsNew(p: Past, k: nat, s: Story)
    requires Paired(p) && 1 <= k <= |p.instants| && Sound(p, k - 1, s, Get(Spans(p, k - 1), s))
    requires In(Get(After(p, k), s.labels), Firing, s.activeAt)
    requires s in Burning(After(p, k - 1)) <==> In(Get(After(p, k - 1), s.labels), Firing, s.activeAt)
    requires !In(Get(After(p, k - 1), s.labels), Firing, s.activeAt) ==>
               && !IsFiring(Get(After(p, k - 1), s.labels))
               && (s.activeAt == p.instants[k - 1] || In(Get(After(p, k - 1), s.labels), Pending, s.activeAt))
    ensures s !in Spans(p, k - 1) <==> s.labels in Starters(p, k)
  {
    hide After, Burning, Spans;
    if k >= 2 {
      assert BurnsAt(p, k - 2, s) <==> s in Burning(After(p, k - 1));
      assert p.instants[k - 2] < p.instants[k - 1];
    } else {
      NothingBurnsFirst(p, s);
    }
  }

  lemma MarkedSize(t: Table, m: Model, now: Time)
    ensures |MarkAll(t, m, now)| == |t| + |Burning(m) - t.Keys|
  {
    hide Burning;
    var u := MarkAll(t, m, now);
    assert u.Keys == t.Keys + (Burning(m) - t.Keys);
    assert |u| == |u.Keys| && |t| == |t.Keys|;
  }

  /** One alert per time something started to fire. */
  lemma {:induction false} OneStoryPerTransition(p: Past, k: nat)
    requires Paired(p) && k <= |p.instants|
    ensures |Spans(p, k)| == Transitions(p, k)
  {
    hide After, Burning, MarkAll;
    if k > 0 {
      OneStoryPerTransition(p, k - 1);
      NewStories(p, k);
      StartersTracked(p, k);
      ImageSize(Starters(p, k), After(p, k), Burning(After(p, k)) - Spans(p, k - 1).Keys);
      MarkedSize(Spans(p, k - 1), After(p, k), p.instants[k - 1]);
      hide Starters;
    }
  }

  lemma StartersTracked(p: Past, k: nat)
    requires 1 <= k <= |p.instants| == |p.samples|
    ensures Starters(p, k) <= After(p, k).Keys
  {
    hide After;
  }

  /** Nothing starts to fire at a window that did not return it. */
  lemma {:induction false} AlertsAtMostHits(p: Past, k: nat)
    requires Paired(p) && k <= |p.instants| && EachDistinct(p, k)
    ensures Transitions(p, k) <= Hits(p, k)
  {
    if k > 0 {
      AlertsAtMostHits(p, k - 1);
      var rows := Rows(p.cfg, p.samples[k - 1]);
      forall l | l in Starters(p, k) ensures l in rows {
        AfterAt(p, k, l);
        StepFires(Get(After(p, k - 1), l), Get(rows, l), p.hash(l), l, p.instants[k - 1], p.cfg, After(p, k)[l].alert.activeAt);
      }
      RowsCount(p.cfg, p.samples[k - 1]);
      SubsetSize(Starters(p, k), rows.Keys);
      assert |rows| == |rows.Keys|;
    }
  }

  lemma {:induction false} SubsetSize(a: set<Labels>, b: set<Labels>)
    requires a <= b
    ensures |a| <= |b|
  {
    if a != {} {
      var l :| l in a;
      SubsetSize(a - {l}, b - {l});
    }
  }

  // The code, which knows an alert by its fingerprint.

  datatype Key = Key(fingerprint: Fingerprint, activeAt: Time)

  function KeyOf(s: Story, hash: Labels -> Fingerprint): Key {
    Key(hash(s.labels), s.activeAt)
  }

  ghost predicate Begins(spans: map<Key, Span>, t: Table, hash: Labels -> Fingerprint, key: Key)
    requires key in spans
  {
    exists s :: s in t && KeyOf(s, hash) == key && t[s].firedAt == spans[key].firedAt
  }

  ghost predicate Ends(spans: map<Key, Span>, t: Table, hash: Labels -> Fingerprint, key: Key)
    requires key in spans
  {
    exists s :: s in t && KeyOf(s, hash) == key && t[s].lastFiring == spans[key].lastFiring
  }

  /** The code's table is the exact one with the alerts of one key made one: from the first time
      any of them fired to the last time any did. */
  ghost predicate Merges(spans: map<Key, Span>, t: Table, hash: Labels -> Fingerprint) {
    && (forall s :: s in t ==> InMerged(spans, KeyOf(s, hash), t[s]))
    && (forall key :: key in spans ==> Begins(spans, t, hash, key) && Ends(spans, t, hash, key))
  }

  predicate InMerged(spans: map<Key, Span>, key: Key, e: Span) {
    key in spans && spans[key].firedAt <= e.firedAt && e.lastFiring <= spans[key].lastFiring
  }

  /** Every alert that has fired, once each, in the order they first did. */
  ghost predicate Chronological(order: seq<Key>, t: map<Key, Span>) {
    && (forall k :: k in t <==> k in order)
    && (forall i, j :: 0 <= i < j < |order| ==> order[i] != order[j])
    && (forall i, j :: 0 <= i < j < |order| ==> order[i] in t && order[j] in t && t[order[i]].firedAt <= t[order[j]].firedAt)
  }

  ghost predicate FiredBy<K>(t: map<K, Span>, now: Time) {
    forall k :: k in t ==> t[k].firedAt <= now && t[k].lastFiring <= now
  }

  /** What the code does to its table at one alert that is firing. */
  ghost function Noted(spans: map<Key, Span>, key: Key, firedAt: Time, now: Time): map<Key, Span> {
    spans[key := Mark(Get(spans, key), firedAt, now)]
  }

  lemma MergesMore(spans: map<Key, Span>, t: Table, hash: Labels -> Fingerprint, s: Story, firedAt: Time, now: Time)
    requires Merges(spans, t, hash) && FiredBy(t, now) && (s !in t ==> firedAt == now)
    ensures Merges(Noted(spans, KeyOf(s, hash), firedAt, now), t[s := Mark(Get(t, s), firedAt, now)], hash)
  {
    var k := KeyOf(s, hash);
    var spans', t' := Noted(spans, k, firedAt, now), t[s := Mark(Get(t, s), firedAt, now)];
    forall x | x in t' ensures InMerged(spans', KeyOf(x, hash), t'[x]) {
      StillMerged(spans, t, hash, s, firedAt, now, x);
    }
    forall key | key in spans' ensures Begins(spans', t', hash, key) && Ends(spans', t', hash, key) {
      StillBegins(spans, t, hash, key, s, firedAt, now);
      StillEnds(spans, t, hash, key, s, firedAt, now);
    }
  }

  lemma StillMerged(spans: map<Key, Span>, t: Table, hash: Labels -> Fingerprint, s: Story, firedAt: Time, now: Time, x: Story)
    requires Merges(spans, t, hash) && FiredBy(t, now) && (s !in t ==> firedAt == now) && (x == s || x in t)
    ensures var t' := t[s := Mark(Get(t, s), firedAt, now)];
            x in t' && InMerged(Noted(spans, KeyOf(s, hash), firedAt, now), KeyOf(x, hash), t'[x])
  {
    var k := KeyOf(s, hash);
    if x in t {
      assert InMerged(spans, KeyOf(x, hash), t[x]);
    }
    if k in spans {
      assert Begins(spans, t, hash, k) && Ends(spans, t, hash, k);
    }
  }

  lemma StillBegins(spans: map<Key, Span>, t: Table, hash: Labels -> Fingerprint, key: Key, s: Story, firedAt: Time, now: Time)
    requires Merges(spans, t, hash) && FiredBy(t, now) && (s !in t ==> firedAt == now)
    requires key in Noted(spans, KeyOf(s, hash), firedAt, now)
    ensures Begins(Noted(spans, KeyOf(s, hash), firedAt, now), t[s := Mark(Get(t, s), firedAt, now)], hash, key)
  {
    var t' := t[s := Mark(Get(t, s), firedAt, now)];
    if key in spans {
      var y :| y in t && KeyOf(y, hash) == key && t[y].firedAt == spans[key].firedAt;
      assert y in t' && t'[y].firedAt == t[y].firedAt;
    } else {
      NewKeyFiresNow(spans, t, hash, s);
      assert s in t' && KeyOf(s, hash) == key;
    }
  }

  lemma StillEnds(spans: map<Key, Span>, t: Table, hash: Labels -> Fingerprint, key: Key, s: Story, firedAt: Time, now: Time)
    requires Merges(spans, t, hash) && key in Noted(spans, KeyOf(s, hash), firedAt, now) && (s !in t ==> firedAt == now)
    ensures Ends(Noted(spans, KeyOf(s, hash), firedAt, now), t[s := Mark(Get(t, s), firedAt, now)], hash, key)
  {
    var t' := t[s := Mark(Get(t, s), firedAt, now)];
    NewKeyFiresNow(spans, t, hash, s);
    if key == KeyOf(s, hash) {
      assert s in t' && t'[s].lastFiring == now;
    } else {
      var y :| y in t && KeyOf(y, hash) == key && t[y].lastFiring == spans[key].lastFiring;
      assert y in t' && t'[y] == t[y];
    }
  }

  lemma ChronologicalMore(order: seq<Key>, t: map<Key, Span>, k: Key, firedAt: Time, now: Time)
    requires Chronological(order, t) && FiredBy(t, now) && (k !in t ==> firedAt == now)
    ensures Chronological(if k in t then order else order + [k], Noted(t, k, firedAt, now))
    ensures FiredBy(Noted(t, k, firedAt, now), now)
  {
    var t' := Noted(t, k, firedAt, now);
    assert forall x :: x in t ==> t'[x].firedAt == t[x].firedAt;
    if k in t {
      assert t'.Keys == t.Keys;
    } else {
      ListedLast(order, t, k, now);
    }
  }

  lemma ListedLast(order: seq<Key>, t: map<Key, Span>, k: Key, now: Time)
    requires Chronological(order, t) && FiredBy(t, now) && k !in t
    ensures Chronological(order + [k], t[k := Span(now, now)])
  {
    var more := order + [k];
    assert more[|order|] == k && k !in order;
    forall x ensures x in t[k := Span(now, now)] <==> x in more {
      assert x in more <==> x in order || x == k;
    }
  }

  lemma FiredByMore(t: Table, s: Story, firedAt: Time, now: Time)
    requires FiredBy(t, now) && (s !in t ==> firedAt == now)
    ensures FiredBy(t[s := Mark(Get(t, s), firedAt, now)], now)
  {
  }

  lemma MarkOneMore(t: Table, part: Model, l: Labels, x: Inst, now: Time)
    requires l !in part
    ensures var s := Story(l, x.alert.activeAt);
            && Get(MarkAll(t, part, now), s) == Get(t, s)
            && MarkAll(t, part[l := x], now)
               == if x.alert.phase == Firing
                  then MarkAll(t, part, now)[s := Mark(Get(t, s), x.alert.firedAt, now)]
                  else MarkAll(t, part, now)
  {
    var s := Story(l, x.alert.activeAt);
    var more := part[l := x];
    forall r: Story ensures r in Burning(more) <==> r in Burning(part) || (r == s && x.alert.phase == Firing) {
      BurningIsIn(more, r);
      BurningIsIn(part, r);
    }
    BurningIsIn(part, s);
    assert forall r :: r in Burning(part) ==> r.labels in part && more[r.labels] == part[r.labels];
    hide Burning, Mark;
  }

  /** The instances tracked are of their own label sets. */
  lemma {:induction false} AfterIsGenuine(p: Past, k: nat)
    requires Paired(p) && k <= |p.instants|
    ensures AllGenuine(After(p, k), p.hash)
  {
    hide Rows, AllGenuine, Increasing;
    if k == 0 {
      NothingYet(p);
    } else {
      AfterIsGenuine(p, k - 1);
      NextKeepsGenuine(After(p, k - 1), Rows(p.cfg, p.samples[k - 1]), p.hash, p.instants[k - 1], p.cfg);
    }
  }

  /** Whatever fires without having fired before fires now. */
  ghost predicate StartNow(m: Model, t: Table, now: Time) {
    forall s :: s in Burning(m) && s !in t ==> m[s.labels].alert.firedAt == now
  }

  ghost predicate Submodel(part: Model, m: Model) {
    forall l :: l in part ==> l in m && part[l] == m[l]
  }

  /** What one window's alerts do to the table. */
  method Collapse(alerts: seq<Alert>, at: Time, spans: map<Key, Span>, order: seq<Key>,
                  ghost t: Table, ghost m: Model, ghost hash: Labels -> Fingerprint)
    returns (spans': map<Key, Span>, order': seq<Key>)
    requires Lists(alerts, m) && AllGenuine(m, hash)
    requires Merges(spans, t, hash) && Chronological(order, spans)
    requires FiredBy(t, at) && FiredBy(spans, at) && StartNow(m, t, at)
    ensures Merges(spans', MarkAll(t, m, at), hash) && Chronological(order', spans')
  {
    hide Merges, Chronological, FiredBy, MarkAll;
    spans', order' := spans, order;
    ghost var part: Model := map[];
    MarkNothing(t, at);
    for i := 0 to |alerts|
      invariant Submodel(part, m)
      invariant forall j :: 0 <= j < i ==> alerts[j].labels in part
      invariant forall j :: i <= j < |alerts| ==> alerts[j].labels !in part
      invariant Merges(spans', MarkAll(t, part, at), hash)
      invariant Chronological(order', spans')
      invariant FiredBy(MarkAll(t, part, at), at) && FiredBy(spans', at)
    {
      var a := alerts[i];
      ghost var cur := MarkAll(t, part, at);
      MarkOneMore(t, part, a.labels, m[a.labels], at);
      part := part[a.labels := m[a.labels]];
      if a.phase != Firing {
        continue;
      }
      ghost var s := Story(a.labels, a.activeAt);
      BurningIsIn(m, s);
      assert Genuine(m[a.labels], a.labels, hash);
      var k := Key(a.fingerprint, a.activeAt);
      assert k == KeyOf(s, hash);
      NewKeyFiresNow(spans', cur, hash, s);
      MergesMore(spans', cur, hash, s, a.firedAt, at);
      ChronologicalMore(order', spans', k, a.firedAt, at);
      FiredByMore(cur, s, a.firedAt, at);
      if k in spans' {
        spans' := spans'[k := spans'[k].(lastFiring := at)];
        continue;
      }
      spans' := spans'[k := Span(a.firedAt, at)];
      order' := order' + [k];
    }
    PartIsAll(alerts, part, m, hash);
  }

  /** An alert whose key the code does not have is one that has not fired. */
  lemma NewKeyFiresNow(spans: map<Key, Span>, t: Table, hash: Labels -> Fingerprint, s: Story)
    requires Merges(spans, t, hash)
    ensures s in t ==> KeyOf(s, hash) in spans
  {
    assert s in t ==> InMerged(spans, KeyOf(s, hash), t[s]);
  }

  lemma PartIsAll(alerts: seq<Alert>, part: Model, m: Model, hash: Labels -> Fingerprint)
    requires Lists(alerts, m) && Submodel(part, m) && AllGenuine(m, hash)
    requires forall j :: 0 <= j < |alerts| ==> alerts[j].labels in part
    ensures part == m
  {
    forall l | l in m ensures l in part {
      assert Genuine(m[l], l, hash);
      assert m[l].alert in alerts;
    }
  }

  lemma MarkNothing(t: Table, now: Time)
    ensures MarkAll(t, map[], now) == t
  {
  }

  // The code's two loops: every window in turn, then the longest of what they left.

  datatype Counts = Counts(alerts: nat, hits: nat, longestStreak: int, stillFiring: bool)

  function Length(e: Span): int {
    e.lastFiring - e.firedAt
  }

  ghost predicate FirstLongest(entries: seq<Span>, i: int) {
    && 0 <= i < |entries|
    && (forall j :: 0 <= j < |entries| ==> Length(entries[j]) <= Length(entries[i]))
    && (forall j :: 0 <= j < i ==> Length(entries[j]) < Length(entries[i]))
  }

  /** The longest streak is the first of the longest, and whether it was still firing is read off it. */
  ghost predicate Longest(entries: seq<Span>, last: Time, step: int, streak: int, still: bool) {
    if entries == [] then streak == 0 && !still
    else exists i :: FirstLongest(entries, i) && streak == Length(entries[i]) + step && still == (entries[i].lastFiring == last)
  }

  ghost function EntriesOf(order: seq<Key>, spans: map<Key, Span>): seq<Span>
    requires forall i :: 0 <= i < |order| ==> order[i] in spans
  {
    seq(|order|, i requires 0 <= i < |order| => spans[order[i]])
  }

  method LongestStreak(spans: map<Key, Span>, order: seq<Key>, last: Time, step: int) returns (streak: int, still: bool)
    requires (forall i :: 0 <= i < |order| ==> order[i] in spans) && step > 0
    requires forall i :: 0 <= i < |order| ==> Length(spans[order[i]]) >= 0
    ensures Longest(EntriesOf(order, spans), last, step, streak, still)
  {
    ghost var entries := EntriesOf(order, spans);
    streak, still := 0, false;
    ghost var best := 0;
    for k := 0 to |order|
      invariant k == 0 ==> streak == 0 && !still
      invariant k > 0 ==> FirstLongest(entries[..k], best) && streak == Length(entries[best]) + step
      invariant k > 0 ==> still == (entries[best].lastFiring == last)
    {
      var span := spans[order[k]];
      var s := span.lastFiring - span.firedAt + step;
      if s <= streak {
        continue;
      }
      streak := s;
      still := span.lastFiring == last;
      best := k;
    }
    assert entries[..|order|] == entries;
  }

  /** The table a report is drawn from: the exact one with the alerts of one key made one, in the
      order they fired. */
  ghost predicate Tabled(p: Past, k: nat, spans: map<Key, Span>, order: seq<Key>)
    requires k <= |p.instants| == |p.samples|
  {
    Merges(spans, Spans(p, k), p.hash) && Chronological(order, spans)
  }

  /** What the report says of a replay: one alert per key that fired, one hit per row, and the
      longest of the spans, the first to fire among equals. */
  ghost predicate Reports(p: Past, step: int, counts: Counts, spans: map<Key, Span>, order: seq<Key>)
    requires Paired(p) && p.instants != []
  {
    var n := |p.instants|;
    && Tabled(p, n, spans, order)
    && counts.alerts == |spans|
    && counts.hits == Hits(p, n)
    && (forall i :: 0 <= i < |order| ==> order[i] in spans)
    && Longest(EntriesOf(order, spans), p.instants[n - 1], step, counts.longestStreak, counts.stillFiring)
  }

  ghost predicate Usable(c: Config, answer: Option<seq<Sample>>) {
    answer.Some? && DistinctRows(c, answer.value)
  }

  ghost predicate AllAnswered(c: Config, answers: seq<Option<seq<Sample>>>) {
    forall i :: 0 <= i < |answers| ==> Usable(c, answers[i])
  }

  /** What the loop over the windows has gathered. */
  datatype Tally = Tally(spans: map<Key, Span>, order: seq<Key>, hits: nat)

  ghost predicate Ready(state: State, p: Past, k: nat, tally: Tally)
    reads state, state.repr
  {
    && k <= |p.instants| == |p.samples|
    && state.Valid() && state.Cfg() == p.cfg && state.hash == p.hash && state.model == After(p, k)
    && Tabled(p, k, tally.spans, tally.order) && tally.hits == Hits(p, k)
  }

  /** Runs one window through the state machine and takes over what it lists. */
  method RunWindow(state: State, ghost p: Past, k: nat, at: Time, answers: seq<Option<seq<Sample>>>, tally: Tally)
    returns (r: Option<Tally>)
    requires Ready(state, p, k, tally)
    requires Paired(p) && IsPast(p, answers) && k < |answers| && at == p.instants[k]
    requires UsableUpTo(p.cfg, answers, k)
    modifies state`active, state`model, state`index, state`repr, state.repr
    ensures fresh(state.repr - old(state.repr))
    ensures r.None? ==> !AllAnswered(p.cfg, answers)
    ensures r.Some? ==> UsableUpTo(p.cfg, answers, k + 1)
    ensures r.Some? ==> Ready(state, p, k + 1, r.value)
  {
    hide Merges, Chronological, FiredBy, Increasing, StartNow, AllGenuine, Ordered;
    hide After, Spans, MarkAll, Next, Rows, Lists, Filed, DistinctRows, ReportsFailures, Hits;
    AnswerAt(p, answers, k);
    if answers[k].None? {
      return None;
    }
    var samples := answers[k].value;
    var evaluated := state.Eval(at, samples);
    if evaluated.Duplicate? {
      return None;
    }
    WindowReady(p, k, tally.spans);
    OneMoreWindow(p, k);
    var spans, order := Collapse(evaluated.alerts, at, tally.spans, tally.order, Spans(p, k), After(p, k + 1), p.hash);
    r := Some(Tally(spans, order, tally.hits + |samples|));
  }

  method Summarise(ghost p: Past, tally: Tally, last: Time, step: int) returns (counts: Counts)
    requires Paired(p) && p.instants != [] && last == p.instants[|p.instants| - 1] && step > 0
    requires Tabled(p, |p.instants|, tally.spans, tally.order) && tally.hits == Hits(p, |p.instants|)
    ensures Reports(p, step, counts, tally.spans, tally.order)
  {
    hide Merges, Chronological, Spans, Increasing, Hits, Longest;
    EntriesReady(p, |p.instants|, tally.spans, tally.order);
    var streak, still := LongestStreak(tally.spans, tally.order, last, step);
    counts := Counts(|tally.spans|, tally.hits, streak, still);
  }

  /** `p` is what a replay of these answers is given. */
  ghost predicate IsPast(p: Past, answers: seq<Option<seq<Sample>>>) {
    && |p.samples| == |answers|
    && forall k :: 0 <= k < |answers| ==> p.samples[k] == if answers[k].Some? then answers[k].value else []
  }

  /** Runs every window in order, and stops at the first one that cannot be evaluated. */
  method RunWindows(state: State, answers: seq<Option<seq<Sample>>>, instants: seq<Time>, ghost p: Past)
    returns (r: Option<Tally>)
    requires state.repr == {} && Ready(state, p, 0, Tally(map[], [], 0))
    requires Paired(p) && p.instants == instants && IsPast(p, answers)
    modifies state`active, state`model, state`index, state`repr
    ensures r.Some? <==> AllAnswered(p.cfg, answers)
    ensures r.Some? ==> Ready(state, p, |p.instants|, r.value)
  {
    hide *;
    var tally := Tally(map[], [], 0);
    FirstAnswer(p, answers);
    for k := 0 to |instants|
      invariant fresh(state.repr) && Ready(state, p, k, tally)
      invariant UsableUpTo(p.cfg, answers, k)
    {
      AnswerAt(p, answers, k);
      r := RunWindow(state, p, k, instants[k], answers, tally);
      if r.None? {
        return;
      }
      tally := r.value;
    }
    r := Some(tally);
  }

  /** Replays a rule over its past windows, unless one of them cannot be evaluated. */
  method Replay(state: State, answers: seq<Option<seq<Sample>>>, instants: seq<Time>, step: int, ghost p: Past)
    returns (r: Option<Counts>, ghost spans: map<Key, Span>, ghost order: seq<Key>)
    requires state.Valid() && state.model == map[] && state.repr == {}
    requires step > 0 && instants != [] && Paired(p)
    requires p.cfg == state.Cfg() && p.hash == state.hash && p.instants == instants && IsPast(p, answers)
    modifies state`active, state`model, state`index, state`repr
    ensures r.Some? <==> AllAnswered(p.cfg, answers)
    ensures r.Some? ==> Reports(p, step, r.value, spans, order)
  {
    NothingYet(p);
    assert Ready(state, p, 0, Tally(map[], [], 0));
    hide After, Tabled, Hits, Paired, AllAnswered, IsPast, State.Valid, Filed;
    spans, order := map[], [];
    var tally := RunWindows(state, answers, instants, p);
    if tally.None? {
      return None, spans, order;
    }
    var counts := Summarise(p, tally.value, instants[|instants| - 1], step);
    r, spans, order := Some(counts), tally.value.spans, tally.value.order;
  }

  ghost predicate UsableUpTo(c: Config, answers: seq<Option<seq<Sample>>>, k: nat)
    requires k <= |answers|
  {
    forall j :: 0 <= j < k ==> Usable(c, answers[j])
  }

  lemma FirstAnswer(p: Past, answers: seq<Option<seq<Sample>>>)
    requires Paired(p) && IsPast(p, answers)
    ensures |p.samples| == |p.instants| == |answers|
    ensures UsableUpTo(p.cfg, answers, 0)
    ensures AllAnswered(p.cfg, answers) <==> UsableUpTo(p.cfg, answers, |answers|)
  {
    hide Usable;
  }

  lemma AnswerAt(p: Past, answers: seq<Option<seq<Sample>>>, k: nat)
    requires k < |answers| && IsPast(p, answers)
    ensures k < |p.samples| && (answers[k].Some? ==> p.samples[k] == answers[k].value)
    ensures AllAnswered(p.cfg, answers) ==> Usable(p.cfg, answers[k])
    ensures UsableUpTo(p.cfg, answers, k) && Usable(p.cfg, answers[k]) ==> UsableUpTo(p.cfg, answers, k + 1)
    ensures UsableUpTo(p.cfg, answers, |answers|) ==> AllAnswered(p.cfg, answers)
  {
    hide Usable;
  }

  lemma NothingYet(p: Past)
    requires |p.instants| == |p.samples|
    ensures After(p, 0) == map[] && Hits(p, 0) == 0
    ensures Tabled(p, 0, map[], []) && AllGenuine(After(p, 0), p.hash)
  {
  }

  /** What one window needs to know of the ones before it. */
  lemma WindowReady(p: Past, k: nat, spans: map<Key, Span>)
    requires Paired(p) && k < |p.instants| && Merges(spans, Spans(p, k), p.hash)
    ensures AllGenuine(After(p, k + 1), p.hash)
    ensures FiredBy(Spans(p, k), p.instants[k]) && FiredBy(spans, p.instants[k])
    ensures StartNow(After(p, k + 1), Spans(p, k), p.instants[k])
  {
    hide After, Spans, Burning, Merges, FiredBy, StartNow, AllGenuine, Increasing;
    AfterIsGenuine(p, k + 1);
    AllFiredInThePast(p, k);
    MergedFiredBy(spans, Spans(p, k), p.hash, p.instants[k]);
    AllStartersFireNow(p, k + 1);
  }

  lemma MergedFiredBy(spans: map<Key, Span>, t: Table, hash: Labels -> Fingerprint, now: Time)
    requires Merges(spans, t, hash) && FiredBy(t, now)
    ensures FiredBy(spans, now)
  {
  }

  lemma AllFiredInThePast(p: Past, k: nat)
    requires Paired(p) && k < |p.instants|
    ensures FiredBy(Spans(p, k), p.instants[k])
  {
    hide Spans;
    forall s | s in Spans(p, k) ensures Spans(p, k)[s].firedAt <= p.instants[k] && Spans(p, k)[s].lastFiring <= p.instants[k] {
      FiredInThePast(p, k, s);
      assert p.instants[k - 1] < p.instants[k];
    }
  }

  lemma FiredInThePast(p: Past, k: nat, s: Story)
    requires Paired(p) && k <= |p.instants| && s in Spans(p, k)
    ensures k > 0 && Spans(p, k)[s].firedAt <= Spans(p, k)[s].lastFiring <= p.instants[k - 1]
  {
    hide After, Spans, Covers, In;
    SpansSound(p, k, s);
    var e := Spans(p, k)[s];
    assert Placed(p, k, s, e);
    var j :| 0 <= j < k && p.instants[j] == e.lastFiring;
    assert j < k - 1 ==> p.instants[j] < p.instants[k - 1];
  }

  lemma AllStartersFireNow(p: Past, k: nat)
    requires Paired(p) && 1 <= k <= |p.instants|
    ensures StartNow(After(p, k), Spans(p, k - 1), p.instants[k - 1])
  {
    forall s: Story | s in Burning(After(p, k)) && s !in Spans(p, k - 1)
      ensures s.labels in After(p, k) && After(p, k)[s.labels].alert.firedAt == p.instants[k - 1] {
      StarterFiresNow(p, k, s);
    }
    hide After, Spans, Burning;
  }

  lemma StarterFiresNow(p: Past, k: nat, s: Story)
    requires Paired(p) && 1 <= k <= |p.instants|
    requires s in Burning(After(p, k)) && s !in Spans(p, k - 1)
    ensures s.labels in After(p, k) && After(p, k)[s.labels].alert.firedAt == p.instants[k - 1]
  {
    SpansSound(p, k - 1, s);
    AfterAt(p, k, s.labels);
    StepFires(Get(After(p, k - 1), s.labels), Get(Rows(p.cfg, p.samples[k - 1]), s.labels), p.hash(s.labels), s.labels,
              p.instants[k - 1], p.cfg, s.activeAt);
    BurningIsIn(After(p, k), s);
    BurningIsIn(After(p, k - 1), s);
    NothingBurnsFirst(p, s);
    assert k >= 2 ==> (BurnsAt(p, k - 2, s) <==> s in Burning(After(p, k - 1)));
    hide Spans, Step, Burning, After;
  }

  lemma OneMoreWindow(p: Past, k: nat)
    requires k < |p.instants| == |p.samples|
    ensures After(p, k + 1) == Next(After(p, k), Rows(p.cfg, p.samples[k]), p.hash, p.instants[k], p.cfg)
    ensures Hits(p, k + 1) == Hits(p, k) + |p.samples[k]|
    ensures Spans(p, k + 1) == MarkAll(Spans(p, k), After(p, k + 1), p.instants[k])
  {
  }

  lemma EntriesReady(p: Past, n: nat, spans: map<Key, Span>, order: seq<Key>)
    requires Paired(p) && n <= |p.instants| && Tabled(p, n, spans, order)
    ensures forall i :: 0 <= i < |order| ==> order[i] in spans
    ensures forall i :: 0 <= i < |order| ==> Length(spans[order[i]]) >= 0
  {
    hide Spans, After;
    forall i | 0 <= i < |order| ensures order[i] in spans && Length(spans[order[i]]) >= 0 {
      SpanRuns(p, n, spans, order[i]);
    }
  }

  /** A span runs forwards, between the first window and the last. */
  lemma SpanRuns(p: Past, n: nat, spans: map<Key, Span>, key: Key)
    requires Paired(p) && n <= |p.instants| && Merges(spans, Spans(p, n), p.hash) && key in spans
    ensures n > 0 && p.instants[0] <= spans[key].firedAt <= spans[key].lastFiring <= p.instants[n - 1]
  {
    hide Spans, After, Covers, In;
    var t := Spans(p, n);
    var s :| s in t && KeyOf(s, p.hash) == key && t[s].firedAt == spans[key].firedAt;
    assert InMerged(spans, key, t[s]);
    SpanPlaced(p, n, s);
    var r :| r in t && KeyOf(r, p.hash) == key && t[r].lastFiring == spans[key].lastFiring;
    SpanPlaced(p, n, r);
  }

  lemma SpanPlaced(p: Past, n: nat, s: Story)
    requires Paired(p) && n <= |p.instants| && s in Spans(p, n)
    ensures n > 0 && p.instants[0] <= Spans(p, n)[s].firedAt <= Spans(p, n)[s].lastFiring <= p.instants[n - 1]
  {
    hide Spans, After, Covers, In;
    SpansSound(p, n, s);
    FiredInThePast(p, n, s);
    var e := Spans(p, n)[s];
    assert Placed(p, n, s, e);
    var j :| 0 <= j < n && p.instants[j] == e.firedAt;
    assert j > 0 ==> p.instants[0] < p.instants[j];
  }

  // What the report means.

  /** No two of the alerts that fired have one key. */
  ghost predicate KeysApart(stories: set<Story>, hash: Labels -> Fingerprint) {
    forall a, b :: a in stories && b in stories && KeyOf(a, hash) == KeyOf(b, hash) ==> a == b
  }

  /** The count is the number of times something started to fire if no two of the alerts that
      fired share a fingerprint and a time of becoming active, and smaller otherwise. */
  lemma AlertsExactly(p: Past, step: int, counts: Counts, spans: map<Key, Span>, order: seq<Key>)
    requires Paired(p) && p.instants != [] && Reports(p, step, counts, spans, order)
    ensures counts.alerts <= Transitions(p, |p.instants|)
    ensures counts.alerts == Transitions(p, |p.instants|) <==> KeysApart(Spans(p, |p.instants|).Keys, p.hash)
  {
    hide Spans, Transitions, Chronological, Longest;
    var n := |p.instants|;
    var t := Spans(p, n);
    OneStoryPerTransition(p, n);
    MergedKeys(spans, t, p.hash);
    KeyCount(t.Keys, spans.Keys, p.hash);
    assert |spans| == |spans.Keys| && |t| == |t.Keys|;
  }

  lemma MergedKeys(spans: map<Key, Span>, t: Table, hash: Labels -> Fingerprint)
    requires Merges(spans, t, hash)
    ensures forall s :: s in t ==> KeyOf(s, hash) in spans
    ensures forall key :: key in spans ==> exists s :: s in t && KeyOf(s, hash) == key
  {
    forall s | s in t ensures KeyOf(s, hash) in spans {
      assert InMerged(spans, KeyOf(s, hash), t[s]);
    }
  }

  lemma {:induction false} KeyCount(stories: set<Story>, keys: set<Key>, hash: Labels -> Fingerprint)
    requires forall s :: s in stories ==> KeyOf(s, hash) in keys
    requires forall key :: key in keys ==> exists s :: s in stories && KeyOf(s, hash) == key
    ensures |keys| <= |stories| && (|keys| == |stories| <==> KeysApart(stories, hash))
  {
    if stories == {} {
      assert keys == {};
    } else {
      var s :| s in stories;
      var rest := stories - {s};
      if x :| x in rest && KeyOf(x, hash) == KeyOf(s, hash) {
        forall key | key in keys ensures exists y :: y in rest && KeyOf(y, hash) == key {
          var y :| y in stories && KeyOf(y, hash) == key;
          assert x in rest && (y == s || y in rest);
        }
        KeyCount(rest, keys, hash);
      } else {
        var fewer := keys - {KeyOf(s, hash)};
        forall key | key in fewer ensures exists y :: y in rest && KeyOf(y, hash) == key {
          var y :| y in stories && KeyOf(y, hash) == key;
          assert y in rest;
        }
        KeyCount(rest, fewer, hash);
      }
    }
  }

  /** Still firing: the first-fired of the longest spans is of an alert firing at the last window. */
  lemma StillFiringExactly(p: Past, step: int, counts: Counts, spans: map<Key, Span>, order: seq<Key>)
    requires Paired(p) && p.instants != [] && Reports(p, step, counts, spans, order)
    ensures counts.stillFiring <==>
              exists i :: FirstLongest(EntriesOf(order, spans), i) && KeyBurns(p, order[i])
  {
    hide KeyBurns, Merges, Chronological, FirstLongest, Longest, Spans, Increasing, Hits;
    var n := |p.instants|;
    var entries := EntriesOf(order, spans);
    forall i | 0 <= i < |order| ensures entries[i].lastFiring == p.instants[n - 1] <==> KeyBurns(p, order[i]) {
      KeyBurnsExactly(p, spans, order[i]);
    }
    if entries != [] {
      var i := LongestAt(entries, p.instants[n - 1], step, counts.longestStreak, counts.stillFiring);
      forall j | FirstLongest(entries, j) ensures i == j {
        FirstLongestIsOne(entries, j);
        if i < j {
          OneFirstLongest(entries, i, j);
        } else if j < i {
          OneFirstLongest(entries, j, i);
        }
      }
    } else {
      LongestOfNone(entries, p.instants[n - 1], step, counts.longestStreak, counts.stillFiring);
      forall j ensures !FirstLongest(entries, j) {
        NoLongest(j);
      }
    }
  }

  /** An alert of this key is firing after the last window. */
  ghost predicate KeyBurns(p: Past, key: Key)
    requires |p.instants| == |p.samples|
  {
    exists s :: s in Burning(After(p, |p.instants|)) && KeyOf(s, p.hash) == key
  }

  lemma KeyBurnsExactly(p: Past, spans: map<Key, Span>, key: Key)
    requires Paired(p) && p.instants != [] && Merges(spans, Spans(p, |p.instants|), p.hash) && key in spans
    ensures spans[key].lastFiring == p.instants[|p.instants| - 1] <==> KeyBurns(p, key)
  {
    hide Spans, After, Burning;
    var n := |p.instants|;
    var t := Spans(p, n);
    SpanRuns(p, n, spans, key);
    var r :| r in t && KeyOf(r, p.hash) == key && t[r].lastFiring == spans[key].lastFiring;
    BurnsToTheEnd(p, r);
    if s :| s in Burning(After(p, n)) && KeyOf(s, p.hash) == key {
      BurningIsListed(p, s);
      BurnsToTheEnd(p, s);
      assert InMerged(spans, key, t[s]);
    }
  }

  lemma BurningIsListed(p: Past, s: Story)
    requires Paired(p) && p.instants != [] && s in Burning(After(p, |p.instants|))
    ensures s in Spans(p, |p.instants|)
  {
    hide After, Burning;
  }

  lemma OneFirstLongest(entries: seq<Span>, i: int, j: int)
    requires 0 <= i < j < |entries|
    ensures !(FirstLongest(entries, i) && FirstLongest(entries, j))
  {
    assert FirstLongest(entries, i) ==> Length(entries[j]) <= Length(entries[i]);
    assert FirstLongest(entries, j) ==> Length(entries[i]) < Length(entries[j]);
  }

  lemma LongestAt(entries: seq<Span>, last: Time, step: int, streak: int, still: bool) returns (i: nat)
    requires entries != [] && Longest(entries, last, step, streak, still)
    ensures i < |entries| && FirstLongest(entries, i)
    ensures streak == Length(entries[i]) + step && still == (entries[i].lastFiring == last)
  {
    i :| FirstLongest(entries, i) && streak == Length(entries[i]) + step && still == (entries[i].lastFiring == last);
  }

  lemma LongestOfNone(entries: seq<Span>, last: Time, step: int, streak: int, still: bool)
    requires entries == [] && Longest(entries, last, step, streak, still)
    ensures streak == 0 && !still
  {
  }

  lemma FirstLongestIsOne(entries: seq<Span>, i: int)
    requires FirstLongest(entries, i)
    ensures 0 <= i < |entries|
  {
  }

  lemma NoLongest(j: int)
    ensures !FirstLongest([], j)
  {
  }

  /** A span ends at the end of the replay if its alert was firing then. */
  lemma BurnsToTheEnd(p: Past, s: Story)
    requires Paired(p) && p.instants != [] && s in Spans(p, |p.instants|)
    ensures Spans(p, |p.instants|)[s].lastFiring == p.instants[|p.instants| - 1] <==> s in Burning(After(p, |p.instants|))
  {
    hide Spans, After, Burning, Placed;
    var n := |p.instants|;
    SpansSound(p, n, s);
    SpanPlaced(p, n, s);
    assert BurnsAt(p, n - 1, s) <==> s in Burning(After(p, n));
  }

  /** No streak is longer than the windows replayed. */
  lemma StreakWithinReplay(p: Past, step: int, counts: Counts, spans: map<Key, Span>, order: seq<Key>)
    requires Paired(p) && p.instants != [] && step > 0 && Reports(p, step, counts, spans, order)
    requires IsInstants(p.instants, p.instants[|p.instants| - 1], step, |p.instants|)
    ensures 0 <= counts.longestStreak <= |p.instants| * step
    ensures counts.longestStreak > 0 <==> counts.alerts > 0
  {
    var n := |p.instants|;
    Distribute(n, -1, step);
    KeepsOrder(1, n, step);
    var entries := EntriesOf(order, spans);
    hide Spans, Burning, After, FirstLongest, Longest;
    if entries != [] {
      var i := LongestAt(entries, p.instants[n - 1], step, counts.longestStreak, counts.stillFiring);
      SpanRuns(p, n, spans, order[i]);
      assert order[i] in spans.Keys;
    } else {
      assert spans.Keys == {};
    }
    assert |spans| == |spans.Keys|;
  }

  /** Two windows at which alerts of one key fired, the first not after the second. */
  ghost predicate Streak(p: Past, s: Story, i: int, t: Story, j: int)
    requires |p.instants| == |p.samples|
  {
    0 <= i <= j < |p.instants| && BurnsAt(p, i, s) && BurnsAt(p, j, t) && KeyOf(s, p.hash) == KeyOf(t, p.hash)
  }

  /** The longest streak is a step for every window from one at which an alert fired to a later one
      at which it, or one the code takes for it, did; no such stretch is longer. */
  lemma StreakExactly(p: Past, step: int, counts: Counts, spans: map<Key, Span>, order: seq<Key>)
    requires Paired(p) && p.instants != [] && step > 0 && Reports(p, step, counts, spans, order)
    requires IsInstants(p.instants, p.instants[|p.instants| - 1], step, |p.instants|)
    ensures forall s, i, t, j :: Streak(p, s, i, t, j) ==> (j - i + 1) * step <= counts.longestStreak
    ensures counts.alerts > 0 ==> exists s, i, t, j :: Streak(p, s, i, t, j) && (j - i + 1) * step == counts.longestStreak
  {
    hide Spans, After, Burning, FirstLongest, Longest, IsInstants, BurnsAt, Merges, Chronological;
    forall s, i, t, j | Streak(p, s, i, t, j) ensures (j - i + 1) * step <= counts.longestStreak {
      NoLongerStreak(p, step, counts, spans, order, s, i, t, j);
    }
    if counts.alerts > 0 {
      var s, i, t, j := SomeStreak(p, step, counts, spans, order);
    }
  }

  lemma Apart(p: Past, step: int, i: nat, j: nat)
    requires p.instants != [] && i < |p.instants| && j < |p.instants|
    requires IsInstants(p.instants, p.instants[|p.instants| - 1], step, |p.instants|)
    ensures p.instants[j] - p.instants[i] + step == (j - i + 1) * step
  {
    var n := |p.instants|;
    Distribute(n - 1 - i, -(n - 1 - j), step);
    Distribute(j - i, 1, step);
  }

  lemma NoLongerStreak(p: Past, step: int, counts: Counts, spans: map<Key, Span>, order: seq<Key>, s: Story, i: nat, t: Story, j: nat)
    requires Paired(p) && p.instants != [] && step > 0 && Reports(p, step, counts, spans, order) && Streak(p, s, i, t, j)
    requires IsInstants(p.instants, p.instants[|p.instants| - 1], step, |p.instants|)
    ensures (j - i + 1) * step <= counts.longestStreak
  {
    hide Spans, After, Burning, FirstLongest, Longest, IsInstants, BurnsAt, Merges, Chronological;
    var n, key := |p.instants|, KeyOf(s, p.hash);
    WithinSpan(p, spans, s, i);
    WithinSpan(p, spans, t, j);
    Apart(p, step, i, j);
    var k := PlaceInOrder(order, spans, key);
    var entries := EntriesOf(order, spans);
    var best := LongestAt(entries, p.instants[n - 1], step, counts.longestStreak, counts.stillFiring);
    NoneLonger(entries, best, k);
  }

  lemma WithinSpan(p: Past, spans: map<Key, Span>, s: Story, i: nat)
    requires Paired(p) && Merges(spans, Spans(p, |p.instants|), p.hash) && i < |p.instants| && BurnsAt(p, i, s)
    ensures KeyOf(s, p.hash) in spans
    ensures spans[KeyOf(s, p.hash)].firedAt <= p.instants[i] <= spans[KeyOf(s, p.hash)].lastFiring
  {
    hide Spans, After, Burning, BurnsAt, Placed;
    SpansSound(p, |p.instants|, s);
    assert InMerged(spans, KeyOf(s, p.hash), Spans(p, |p.instants|)[s]);
  }

  lemma PlaceInOrder(order: seq<Key>, spans: map<Key, Span>, key: Key) returns (k: nat)
    requires Chronological(order, spans) && key in spans
    ensures k < |order| && order[k] == key
  {
    assert key in order;
    k :| k < |order| && order[k] == key;
  }

  lemma NoneLonger(entries: seq<Span>, best: nat, k: nat)
    requires FirstLongest(entries, best) && k < |entries|
    ensures Length(entries[k]) <= Length(entries[best])
  {
  }

  lemma SomeStreak(p: Past, step: int, counts: Counts, spans: map<Key, Span>, order: seq<Key>)
    returns (s: Story, i: nat, t: Story, j: nat)
    requires Paired(p) && p.instants != [] && step > 0 && Reports(p, step, counts, spans, order) && counts.alerts > 0
    requires IsInstants(p.instants, p.instants[|p.instants| - 1], step, |p.instants|)
    ensures Streak(p, s, i, t, j) && (j - i + 1) * step == counts.longestStreak
  {
    hide Spans, After, Burning, FirstLongest, Longest, IsInstants, BurnsAt;
    var n := |p.instants|;
    var entries := EntriesOf(order, spans);
    var key := SomeKey(spans);
    assert key in order;
    var best := LongestAt(entries, p.instants[n - 1], step, counts.longestStreak, counts.stillFiring);
    s, i, t, j := EndsOfSpan(p, n, spans, order[best]);
    Apart(p, step, i, j);
  }

  lemma SomeKey(spans: map<Key, Span>) returns (key: Key)
    requires |spans| > 0
    ensures key in spans
  {
    assert |spans| == |spans.Keys|;
    key :| key in spans.Keys;
  }

  /** Both ends of a span are windows at which an alert of its key fired. */
  lemma EndsOfSpan(p: Past, n: nat, spans: map<Key, Span>, key: Key) returns (s: Story, i: nat, t: Story, j: nat)
    requires Paired(p) && n == |p.instants| && Merges(spans, Spans(p, n), p.hash) && key in spans
    ensures Streak(p, s, i, t, j) && p.instants[i] == spans[key].firedAt && p.instants[j] == spans[key].lastFiring
  {
    hide Spans, After, Burning, In, BurnsAt;
    var table := Spans(p, n);
    SpanRuns(p, n, spans, key);
    s :| s in table && KeyOf(s, p.hash) == key && table[s].firedAt == spans[key].firedAt;
    t :| t in table && KeyOf(t, p.hash) == key && table[t].lastFiring == spans[key].lastFiring;
    SpansSound(p, n, s);
    SpansSound(p, n, t);
    assert Placed(p, n, s, table[s]) && Placed(p, n, t, table[t]);
    i :| i < n && p.instants[i] == table[s].firedAt;
    j :| j < n && p.instants[j] == table[t].lastFiring;
    InOrder(p.instants, i, j);
    assert Covers(Some(table[s]), p.instants[i]) && Covers(Some(table[t]), p.instants[j]);
  }

  lemma InOrder(times: seq<Time>, i: nat, j: nat)
    requires Increasing(times) && i < |times| && j < |times| && times[i] <= times[j]
    ensures i <= j
  {
  }

  /** One hit for every row of every window. */
  lemma {:induction false} HitsExactly(p: Past, k: nat)
    requires k <= |p.samples|
    ensures Hits(p, k) == |Places(seq(k, j requires 0 <= j < k => |p.samples[j]|))|
  {
    hide Places;
    if k == 0 {
      NoPlaces();
    } else {
      HitsExactly(p, k - 1);
      var before := seq(k - 1, j requires 0 <= j < k - 1 => |p.samples[j]|);
      PlacesMore(before, |p.samples[k - 1]|);
      assert seq(k, j requires 0 <= j < k => |p.samples[j]|) == before + [|p.samples[k - 1]|];
    }
  }

  /** The same replay reports the same: neither the order of a snapshot nor of a map shows. */
  lemma OneReport(p: Past, step: int, a: Counts, spans: map<Key, Span>, order: seq<Key>,
                  b: Counts, spans': map<Key, Span>, order': seq<Key>)
    requires Paired(p) && p.instants != []
    requires Reports(p, step, a, spans, order) && Reports(p, step, b, spans', order')
    ensures a == b
  {
    hide Spans, Hits, FirstLongest, Chronological, Merges;
    MergedOnce(spans, spans', Spans(p, |p.instants|), p.hash);
    OneLongest(spans, order, order', p.instants[|p.instants| - 1], step, a.longestStreak, a.stillFiring, b.longestStreak, b.stillFiring);
  }

  lemma MergedOnce(spans: map<Key, Span>, spans': map<Key, Span>, t: Table, hash: Labels -> Fingerprint)
    requires Merges(spans, t, hash) && Merges(spans', t, hash)
    ensures spans == spans'
  {
    forall key ensures Get(spans, key) == Get(spans', key) {
      MergedWithin(spans, spans', t, hash, key);
      MergedWithin(spans', spans, t, hash, key);
    }
    hide Merges;
    MapsAgree(spans, spans');
  }

  lemma MergedWithin(spans: map<Key, Span>, spans': map<Key, Span>, t: Table, hash: Labels -> Fingerprint, key: Key)
    requires Merges(spans, t, hash) && Merges(spans', t, hash)
    ensures key in spans ==> InMerged(spans', key, spans[key])
  {
    if key in spans {
      var s :| s in t && KeyOf(s, hash) == key && t[s].firedAt == spans[key].firedAt;
      var r :| r in t && KeyOf(r, hash) == key && t[r].lastFiring == spans[key].lastFiring;
      assert InMerged(spans', key, t[s]) && InMerged(spans', key, t[r]);
    }
  }

  lemma OneLongest(spans: map<Key, Span>, order: seq<Key>, order': seq<Key>, last: Time, step: int,
                   streak: int, still: bool, streak': int, still': bool)
    requires Chronological(order, spans) && Chronological(order', spans)
    requires (forall i :: 0 <= i < |order| ==> order[i] in spans) && (forall i :: 0 <= i < |order'| ==> order'[i] in spans)
    requires Longest(EntriesOf(order, spans), last, step, streak, still)
    requires Longest(EntriesOf(order', spans), last, step, streak', still')
    ensures streak == streak' && still == still'
  {
    hide FirstLongest, Longest, Chronological;
    SameEmpty(spans, order, order');
    if order != [] {
      var e, e' := EntriesOf(order, spans), EntriesOf(order', spans);
      var i := LongestAt(e, last, step, streak, still);
      var j := LongestAt(e', last, step, streak', still');
      FirstOfLongest(spans, order, i, order'[j]);
      FirstOfLongest(spans, order', j, order[i]);
    } else {
      LongestOfNone(EntriesOf(order, spans), last, step, streak, still);
      LongestOfNone(EntriesOf(order', spans), last, step, streak', still');
    }
  }

  lemma SameEmpty(spans: map<Key, Span>, order: seq<Key>, order': seq<Key>)
    requires Chronological(order, spans) && Chronological(order', spans)
    ensures order == [] <==> order' == []
  {
    assert order != [] ==> order[0] in order';
    assert order' != [] ==> order'[0] in order;
  }

  /** No key has a longer span than the first of the longest, nor an equally long one from before. */
  lemma FirstOfLongest(spans: map<Key, Span>, order: seq<Key>, i: int, key: Key)
    requires Chronological(order, spans) && (forall k :: 0 <= k < |order| ==> order[k] in spans)
    requires FirstLongest(EntriesOf(order, spans), i) && key in spans
    ensures Length(spans[key]) <= Length(spans[order[i]])
    ensures Length(spans[key]) == Length(spans[order[i]]) ==> spans[order[i]].firedAt <= spans[key].firedAt
  {
    var e := EntriesOf(order, spans);
    assert key in order;
    var k :| 0 <= k < |order| && order[k] == key;
    assert e[k] == spans[key] && e[i] == spans[order[i]];
    if i < k {
      assert spans[order[i]].firedAt <= spans[order[k]].firedAt;
    }
  }
}
