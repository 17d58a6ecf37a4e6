/** The alert lifecycle as a plain map from label set to instance.

    Nothing here knows about hash buckets, pointers or iteration order: every label
    set is advanced on its own by `Step`. `AlertStates.State` is proved to compute
    exactly this map, whatever its hash function does. */
module AlertModel {
  import opened Options

  /** A label set. */
  datatype Labels = Labels(pairs: map<string, string>)

  /** Nanoseconds since the zero time. */
  type Time = int

  /** A 64-bit hash of a label set. Nothing depends on its width or its values. */
  type Fingerprint = int

  const LABEL_SOURCE := "source"
  const LABEL_ALERTNAME := "alertname"
  const LABEL_TEAM := "team"

  datatype Sample = Sample(labels: Labels, value: real)

  datatype Phase = Pending | Firing | Resolved

  datatype Alert = Alert(
    fingerprint: Fingerprint, labels: Labels, value: real, phase: Phase,
    activeAt: Time, firedAt: Time, resolvedAt: Time,
    annotations: map<string, string>, validUntil: Time)

  /** What rendering every annotation of one alert produced: the texts, and the
      error of each annotation that would not render. */
  datatype Rendered = Rendered(annotations: map<string, string>, failures: map<string, string>)

  /** `render` stands for the compiled templates, which are not modelled. */
  datatype Rule = Rule(alert: string, labels: Labels, holdFor: Time, keepFiringFor: Time, render: Alert -> Rendered)

  datatype Source = Source(name: string, labels: Labels)

  /** Everything a State holds besides its instances. */
  datatype Config = Config(rule: Rule, base: Labels, src: Source, retention: Time)

  datatype Inst = Inst(alert: Alert, lastSeen: Time)

  type Model = map<Labels, Inst>

  function BaseLabels(rule: Rule, groupLabels: Labels): Labels {
    Labels(groupLabels.pairs + rule.labels.pairs)
  }

  /** The precedence of label sources: file-level labels, result columns, the
      source's own labels, then the two names the ruler owns. */
  function LabelsFor(c: Config, s: Sample): Labels {
    var columns := s.labels.pairs - {LABEL_TEAM};
    Labels((c.base.pairs + columns + c.src.labels.pairs)[LABEL_ALERTNAME := c.rule.alert][LABEL_SOURCE := c.src.name])
  }

  /** Under this definition every sample's alert has exactly these labels: the two names the ruler
      owns, else the source's own, else the sample's column of that name unless it is the team,
      else the rule's, else the group's. */
  ghost predicate LabelsBy(c: Config, rule: Rule, groupLabels: Labels, src: Source) {
    forall s, k ::
      Get(LabelsFor(c, s).pairs, k) ==
        if k == "alertname" then Some(rule.alert)
        else if k == "source" then Some(src.name)
        else if k in src.labels.pairs then Some(src.labels.pairs[k])
        else if k in s.labels.pairs && k != "team" then Some(s.labels.pairs[k])
        else if k in rule.labels.pairs then Some(rule.labels.pairs[k])
        else Get(groupLabels.pairs, k)
  }

  lemma BaseDecidesLabels(c: Config, rule: Rule, groupLabels: Labels, src: Source)
    requires c.rule == rule && c.src == src && c.base == BaseLabels(rule, groupLabels)
    ensures LabelsBy(c, rule, groupLabels, src)
  {
    forall s, k
      ensures Get(LabelsFor(c, s).pairs, k) ==
        if k == "alertname" then Some(rule.alert)
        else if k == "source" then Some(src.name)
        else if k in src.labels.pairs then Some(src.labels.pairs[k])
        else if k in s.labels.pairs && k != "team" then Some(s.labels.pairs[k])
        else if k in rule.labels.pairs then Some(rule.labels.pairs[k])
        else Get(groupLabels.pairs, k) {
      OwnedNamesDiffer();
    }
  }

  lemma OwnedNamesDiffer()
    ensures "alertname" != "source" && "team" != "source" && "team" != "alertname"
  {
    assert "alertname"[0] == 'a' && "source"[0] == 's' && "team"[0] == 't';
  }

  /** No two samples become the same alert. */
  ghost predicate DistinctRows(c: Config, samples: seq<Sample>) {
    forall i, j :: 0 <= i < j < |samples| ==> LabelsFor(c, samples[i]) != LabelsFor(c, samples[j])
  }

  /** The samples as a map from final label set to value. */
  function Rows(c: Config, samples: seq<Sample>): map<Labels, real> {
    if samples == [] then map[]
    else Rows(c, samples[..|samples| - 1])[LabelsFor(c, samples[|samples| - 1]) := samples[|samples| - 1].value]
  }

  function Fresh(fp: Fingerprint, labels: Labels, now: Time): Inst {
    Inst(Alert(fp, labels, 0.0, Pending, now, 0, 0, map[], 0), 0)
  }

  /** The instance a returned row belongs to: a resolved one does not continue. */
  function Target(prev: Option<Inst>, fp: Fingerprint, labels: Labels, now: Time): Inst {
    if prev.Some? && prev.value.alert.phase != Resolved then prev.value else Fresh(fp, labels, now)
  }

  /** The row's value is taken over and the `for` timer is read. */
  function Touch(x: Inst, value: real, now: Time, rule: Rule): Inst {
    var seen := x.(alert := x.alert.(value := value), lastSeen := now);
    if seen.alert.phase == Pending && now - seen.alert.activeAt >= rule.holdFor
    then seen.(alert := seen.alert.(phase := Firing, firedAt := now))
    else seen
  }

  function Render(x: Inst, rule: Rule): Inst {
    x.(alert := x.alert.(annotations := rule.render(x.alert).annotations))
  }

  function Observe(prev: Option<Inst>, fp: Fingerprint, labels: Labels, value: real, now: Time, rule: Rule): Inst {
    Render(Touch(Target(prev, fp, labels, now), value, now, rule), rule)
  }

  /** What becomes of an instance the evaluation did not return. */
  function Lapse(x: Inst, now: Time, c: Config): Option<Inst> {
    match x.alert.phase
    case Pending => None
    case Resolved => if now - x.alert.resolvedAt > c.retention then None else Some(x)
    case Firing =>
      if now - x.lastSeen < c.rule.keepFiringFor then Some(x)
      else Some(x.(alert := x.alert.(phase := Resolved, resolvedAt := now)))
  }

  /** One evaluation of one label set. */
  function Step(prev: Option<Inst>, row: Option<real>, fp: Fingerprint, labels: Labels, now: Time, c: Config): Option<Inst> {
    match row
    case Some(value) => Some(Observe(prev, fp, labels, value, now, c.rule))
    case None => if prev.None? then None else Lapse(prev.value, now, c)
  }

  ghost function StepAt(m: Model, rows: map<Labels, real>, hash: Labels -> Fingerprint, l: Labels, now: Time, c: Config): Option<Inst> {
    Step(Get(m, l), Get(rows, l), hash(l), l, now, c)
  }

  /** One evaluation of the whole map: every label set steps independently. */
  ghost function Next(m: Model, rows: map<Labels, real>, hash: Labels -> Fingerprint, now: Time, c: Config): Model {
    map l | l in m.Keys + rows.Keys && StepAt(m, rows, hash, l, now, c).Some? :: StepAt(m, rows, hash, l, now, c).value
  }

  /** The annotations an instance had rendered so far. A resolved one does not continue. */
  function HeldAnnotations(prev: Option<Inst>): map<string, string> {
    if prev.Some? && prev.value.alert.phase != Resolved then prev.value.alert.annotations else map[]
  }

  /** What an alert says after an evaluation. If it was returned, its value is the row's and its
      annotations are what the templates make of it, value, phase and times as they now are and
      annotations as they were. If it was not, it says what it said. */
  ghost predicate Says(a: Alert, m: Model, rows: map<Labels, real>, rule: Rule) {
    if a.labels in rows then
      && a.value == rows[a.labels]
      && a.annotations == rule.render(a.(annotations := HeldAnnotations(Get(m, a.labels)))).annotations
    else
      a.labels in m && a.value == m[a.labels].alert.value && a.annotations == m[a.labels].alert.annotations
  }

  lemma NextSays(m: Model, rows: map<Labels, real>, hash: Labels -> Fingerprint, now: Time, c: Config, l: Labels)
    requires l in Next(m, rows, hash, now, c) && Next(m, rows, hash, now, c)[l].alert.labels == l
    ensures Says(Next(m, rows, hash, now, c)[l].alert, m, rows, c.rule)
  {
    var x := Next(m, rows, hash, now, c)[l].alert;
    if l in rows {
      RowSays(Get(m, l), hash(l), l, rows[l], now, c.rule);
    }
  }

  lemma RowSays(prev: Option<Inst>, fp: Fingerprint, labels: Labels, value: real, now: Time, rule: Rule)
    ensures var a := Observe(prev, fp, labels, value, now, rule).alert;
            var held := a.(annotations := HeldAnnotations(prev));
            && a.value == value
            && a.annotations == rule.render(held).annotations
            && rule.render(Touch(Target(prev, fp, labels, now), value, now, rule).alert) == rule.render(held)
  {
    var t := Touch(Target(prev, fp, labels, now), value, now, rule);
    assert Observe(prev, fp, labels, value, now, rule).alert.(annotations := HeldAnnotations(prev)) == t.alert;
  }

  /** Every returned row has its alert. */
  lemma RowsAreTracked(m: Model, rows: map<Labels, real>, hash: Labels -> Fingerprint, now: Time, c: Config, l: Labels)
    requires l in rows
    ensures l in Next(m, rows, hash, now, c)
  {
    assert StepAt(m, rows, hash, l, now, c).Some?;
  }

  /** An instance carries the label set it is tracked for, and that set's fingerprint. */
  predicate Genuine(x: Inst, l: Labels, hash: Labels -> Fingerprint) {
    x.alert.labels == l && x.alert.fingerprint == hash(l)
  }

  /** An evaluation keeps that so, and tracks nothing that was neither tracked nor returned. */
  lemma StepIsGenuine(prev: Option<Inst>, row: Option<real>, l: Labels, hash: Labels -> Fingerprint, now: Time, c: Config)
    ensures var x := Step(prev, row, hash(l), l, now, c);
            x.Some? ==> (prev.Some? || row.Some?) && (prev.None? || Genuine(prev.value, l, hash) ==> Genuine(x.value, l, hash))
  {
  }

  /** What `expire` makes of an instance, returned or not. */
  function Fate(x: Inst, returned: bool, now: Time, c: Config): Option<Inst> {
    if returned then Some(x) else Lapse(x, now, c)
  }

  /** What `expire` has made of one label set once the buckets in `done` are visited. */
  ghost function FateOnce(m: Model, returned: set<Labels>, done: set<Fingerprint>, hash: Labels -> Fingerprint, l: Labels, now: Time, c: Config): Option<Inst>
    requires l in m
  {
    if hash(l) in done then Fate(m[l], l in returned, now, c) else Some(m[l])
  }

  ghost function Expired(m: Model, returned: set<Labels>, done: set<Fingerprint>, hash: Labels -> Fingerprint, now: Time, c: Config): Model {
    map l | l in m && FateOnce(m, returned, done, hash, l, now, c).Some? :: FateOnce(m, returned, done, hash, l, now, c).value
  }

  lemma ExpiredPointwise(m0: Model, m: Model, returned: set<Labels>, done: set<Fingerprint>, hash: Labels -> Fingerprint, now: Time, c: Config)
    requires m.Keys <= m0.Keys
    requires forall l :: l in m0 ==> Get(m, l) == FateOnce(m0, returned, done, hash, l, now, c)
    ensures m == Expired(m0, returned, done, hash, now, c)
  {
    forall l | l in m0 ensures Get(m, l) == FateOnce(m0, returned, done, hash, l, now, c) {
    }
  }

  /** Buckets are visited one at a time, and the visits do not interfere. */
  lemma ExpiredCompose(m: Model, returned: set<Labels>, done: set<Fingerprint>, fp: Fingerprint, hash: Labels -> Fingerprint, now: Time, c: Config)
    requires fp !in done
    ensures Expired(Expired(m, returned, done, hash, now, c), returned, {fp}, hash, now, c)
         == Expired(m, returned, done + {fp}, hash, now, c)
  {
  }

  /** The rows that are in `rows` and nothing else have been taken over. */
  ghost predicate AfterRows(m0: Model, m: Model, rows: map<Labels, real>, hash: Labels -> Fingerprint, now: Time, rule: Rule) {
    && m.Keys == m0.Keys + rows.Keys
    && (forall l :: l in rows ==> m[l] == Observe(Get(m0, l), hash(l), l, rows[l], now, rule))
    && (forall l :: l in m0 && l !in rows ==> m[l] == m0[l])
  }

  lemma AfterOneMore(m0: Model, m: Model, rows: map<Labels, real>, l: Labels, v: real, hash: Labels -> Fingerprint, now: Time, rule: Rule)
    requires AfterRows(m0, m, rows, hash, now, rule) && l !in rows
    ensures Get(m, l) == Get(m0, l)
    ensures AfterRows(m0, m[l := Observe(Get(m, l), hash(l), l, v, now, rule)], rows[l := v], hash, now, rule)
  {
    hide Observe;
    assert Get(m, l) == Get(m0, l);
  }

  lemma NoRows(c: Config, m: Model, hash: Labels -> Fingerprint, now: Time)
    ensures Rows(c, []) == map[]
    ensures AfterRows(m, m, map[], hash, now, c.rule)
    ensures ReportsFailures(map[], m, map[], hash, now, c)
  {
  }

  /** Taking over the rows and then expiring every bucket is one step of every label set. */
  lemma ExpiredIsNext(m0: Model, m: Model, rows: map<Labels, real>, done: set<Fingerprint>, hash: Labels -> Fingerprint, now: Time, c: Config)
    requires AfterRows(m0, m, rows, hash, now, c.rule)
    requires forall l :: l in m ==> hash(l) in done
    ensures Expired(m, rows.Keys, done, hash, now, c) == Next(m0, rows, hash, now, c)
  {
    var e := Expired(m, rows.Keys, done, hash, now, c);
    forall l | l in m
      ensures Get(e, l) == StepAt(m0, rows, hash, l, now, c)
    {
    }
  }

  /** Two samples became the alert with these labels. */
  ghost predicate Collide(c: Config, samples: seq<Sample>, labels: Labels) {
    exists i, j :: 0 <= i < j < |samples| && labels == LabelsFor(c, samples[i]) == LabelsFor(c, samples[j])
  }

  /** Some sample carries these labels. */
  ghost predicate Returned(c: Config, samples: seq<Sample>, l: Labels) {
    exists i :: 0 <= i < |samples| && LabelsFor(c, samples[i]) == l
  }

  lemma {:induction false} RowsAt(c: Config, samples: seq<Sample>, i: nat)
    requires DistinctRows(c, samples) && i < |samples|
    ensures LabelsFor(c, samples[i]) in Rows(c, samples)
    ensures Rows(c, samples)[LabelsFor(c, samples[i])] == samples[i].value
  {
    var n := |samples| - 1;
    if i < n {
      assert samples[..n][i] == samples[i];
      RowsAt(c, samples[..n], i);
    }
  }

  lemma {:induction false} RowsOnly(c: Config, samples: seq<Sample>, l: Labels)
    requires l in Rows(c, samples)
    ensures Returned(c, samples, l)
  {
    var n := |samples| - 1;
    if l != LabelsFor(c, samples[n]) {
      RowsOnly(c, samples[..n], l);
      var i :| 0 <= i < n && LabelsFor(c, samples[..n][i]) == l;
      assert samples[..n][i] == samples[i];
    }
  }

  lemma {:induction false} RowsCount(c: Config, samples: seq<Sample>)
    requires DistinctRows(c, samples)
    ensures |Rows(c, samples)| == |samples|
  {
    if samples != [] {
      var n := |samples| - 1;
      var l := LabelsFor(c, samples[n]);
      RowsCount(c, samples[..n]);
      if l in Rows(c, samples[..n]) {
        RowsOnly(c, samples[..n], l);
      }
    }
  }

  /** The annotation failures of one evaluation are the failures of its rows. */
  ghost predicate ReportsFailures(broken: map<string, string>, m: Model, rows: map<Labels, real>, hash: Labels -> Fingerprint, now: Time, c: Config) {
    && (forall a :: a in broken ==> exists l :: l in rows && Fails(m, rows, hash, l, now, c, a, broken[a]))
    && (forall l, a :: l in rows && a in RowFailures(m, rows, hash, l, now, c) ==> a in broken)
  }

  ghost function RowFailures(m: Model, rows: map<Labels, real>, hash: Labels -> Fingerprint, l: Labels, now: Time, c: Config): map<string, string>
    requires l in rows
  {
    c.rule.render(Touch(Target(Get(m, l), hash(l), l, now), rows[l], now, c.rule).alert).failures
  }

  ghost predicate Fails(m: Model, rows: map<Labels, real>, hash: Labels -> Fingerprint, l: Labels, now: Time, c: Config, a: string, err: string)
    requires l in rows
  {
    var failures := RowFailures(m, rows, hash, l, now, c);
    a in failures && failures[a] == err
  }

  lemma ReportsOneMore(broken: map<string, string>, m: Model, rows: map<Labels, real>, l: Labels, v: real, hash: Labels -> Fingerprint, now: Time, c: Config)
    requires ReportsFailures(broken, m, rows, hash, now, c) && l !in rows
    ensures ReportsFailures(broken + RowFailures(m, rows[l := v], hash, l, now, c), m, rows[l := v], hash, now, c)
  {
    var more := rows[l := v];
    var failures := RowFailures(m, more, hash, l, now, c);
    var all := broken + failures;
    forall a | a in all ensures exists k :: k in more && Fails(m, more, hash, k, now, c, a, all[a]) {
      if a in failures {
        assert Fails(m, more, hash, l, now, c, a, all[a]);
      } else {
        var k :| k in rows && Fails(m, rows, hash, k, now, c, a, broken[a]);
        assert RowFailures(m, more, hash, k, now, c) == RowFailures(m, rows, hash, k, now, c);
        assert Fails(m, more, hash, k, now, c, a, all[a]);
      }
    }
    forall k, a | k in more && a in RowFailures(m, more, hash, k, now, c) ensures a in all {
      if k != l {
        assert RowFailures(m, more, hash, k, now, c) == RowFailures(m, rows, hash, k, now, c);
      }
    }
  }

  /** A list holding exactly the alerts of a map, each once, in any order. */
  ghost predicate Lists(alerts: seq<Alert>, m: Model) {
    && (forall i :: 0 <= i < |alerts| ==> alerts[i].labels in m && m[alerts[i].labels].alert == alerts[i])
    && (forall i, j :: 0 <= i < j < |alerts| ==> alerts[i].labels != alerts[j].labels)
    && (forall l :: l in m ==> m[l].alert in alerts)
  }

  lemma ListsOneMore(alerts: seq<Alert>, m: Model, l: Labels, x: Inst)
    requires Lists(alerts, m) && l !in m && x.alert.labels == l
    ensures Lists(alerts + [x.alert], m[l := x])
  {
    var more := alerts + [x.alert];
    var m' := m[l := x];
    forall k | k in m' ensures m'[k].alert in more {
      if k == l {
        assert more[|alerts|] == x.alert;
      } else {
        var i :| 0 <= i < |alerts| && alerts[i] == m[k].alert;
        assert more[i] == m[k].alert;
      }
    }
  }

  lemma ListsNothing()
    ensures Lists([], map[])
  {
  }

  /** The definitions that are the same alert: name, file-level labels and source agree. */
  ghost predicate Adoptable(held: Config, loaded: Config) {
    && loaded.rule.alert == held.rule.alert
    && loaded.base == held.base
    && loaded.src.name == held.src.name
    && loaded.src.labels == held.src.labels
  }
}
