/** The bucketed state machine of one rule against one source. */
module AlertStates {
  import opened Options
  import opened AlertModel
  import opened Orders
  import opened Snapshots

  /** An alert under watch. The fields an evaluation writes are mutable, its identity is not. */
  class Instance {
    const fingerprint: Fingerprint
    const labels: Labels
    const activeAt: Time
    var value: real
    var phase: Phase
    var firedAt: Time
    var resolvedAt: Time
    var annotations: map<string, string>

    /** When a row last stood for it: what keep_firing_for counts from. */
    var lastSeen: Time

    constructor (fp: Fingerprint, labels: Labels, now: Time)
      ensures View() == Fresh(fp, labels, now)
      ensures this.labels == labels && fingerprint == fp
    {
      fingerprint, this.labels, activeAt := fp, labels, now;
      value, phase, firedAt, resolvedAt, annotations, lastSeen := 0.0, Pending, 0, 0, map[], 0;
    }

    function Alert(): Alert
      reads this
    {
      AlertModel.Alert(fingerprint, labels, value, phase, activeAt, firedAt, resolvedAt, annotations, 0)
    }

    ghost function View(): Inst
      reads this
      ensures View().alert.labels == labels && View().alert.phase == phase
    {
      Inst(Alert(), lastSeen)
    }

    /** Writes one returned row: the value, the `for` timer, the annotations. */
    method Write(value: real, now: Time, rule: Rule) returns (failures: map<string, string>)
      modifies this
      ensures View() == Render(Touch(old(View()), value, now, rule), rule)
      ensures failures == rule.render(Touch(old(View()), value, now, rule).alert).failures
    {
      this.value := value;
      lastSeen := now;
      if phase == Pending && now - activeAt >= rule.holdFor {
        phase := Firing;
        firedAt := now;
      }
      var rendered := rule.render(Alert());
      annotations := rendered.annotations;
      failures := rendered.failures;
    }
  }

  type Buckets = map<Fingerprint, seq<Instance>>

  /** The buckets file exactly the indexed instances: each under its own hash, each once,
      no two with one label set, and no bucket empty. */
  ghost predicate Filed(active: Buckets, index: map<Labels, Instance>, hash: Labels -> Fingerprint) {
    && (forall l :: l in index ==> index[l].labels == l && hash(l) in active && index[l] in active[hash(l)])
    && (forall fp :: fp in active ==> Bucket(fp, active[fp], index, hash))
  }

  ghost predicate Bucket(fp: Fingerprint, insts: seq<Instance>, index: map<Labels, Instance>, hash: Labels -> Fingerprint) {
    && insts != []
    && (forall i :: 0 <= i < |insts| ==> Holds(fp, insts[i], index, hash))
    && (forall i, j :: 0 <= i < j < |insts| ==> insts[i] != insts[j])
  }

  ghost predicate Holds(fp: Fingerprint, inst: Instance, index: map<Labels, Instance>, hash: Labels -> Fingerprint) {
    inst.labels in index && index[inst.labels] == inst && hash(inst.labels) == fp && inst.fingerprint == fp
  }

  lemma FiledReplace(active: Buckets, index: map<Labels, Instance>, hash: Labels -> Fingerprint, fp: Fingerprint, i: nat, inst: Instance)
    requires Filed(active, index, hash) && fp in active && i < |active[fp]|
    requires active[fp][i].labels == inst.labels && inst.fingerprint == fp
    requires forall l :: l in index ==> index[l] != inst
    ensures Filed(active[fp := active[fp][i := inst]], index[inst.labels := inst], hash)
  {
    var index' := index[inst.labels := inst];
    var insts := active[fp][i := inst];
    assert Holds(fp, active[fp][i], index, hash);
    forall l | l in index' && hash(l) == fp ensures index'[l] in insts {
      if l == inst.labels {
        assert insts[i] == inst;
      } else {
        var j :| 0 <= j < |active[fp]| && active[fp][j] == index[l];
        assert insts[j] == index'[l];
      }
    }
    forall k | k in active && k != fp ensures Bucket(k, active[k], index', hash) {
      assert forall j :: 0 <= j < |active[k]| ==> Holds(k, active[k][j], index, hash);
    }
    forall j | 0 <= j < |insts| ensures Holds(fp, insts[j], index', hash) {
      assert Holds(fp, active[fp][j], index, hash);
    }
    assert forall j :: 0 <= j < |insts| ==> Holds(fp, active[fp][j], index, hash);
  }

  /** A label set that is in no bucket is not tracked. */
  lemma FiledMissing(active: Buckets, index: map<Labels, Instance>, hash: Labels -> Fingerprint, l: Labels)
    requires Filed(active, index, hash)
    requires hash(l) in active ==> forall j :: 0 <= j < |active[hash(l)]| ==> active[hash(l)][j].labels != l
    ensures l !in index
  {
  }

  lemma FiledAppend(active: Buckets, index: map<Labels, Instance>, hash: Labels -> Fingerprint, insts: seq<Instance>, inst: Instance)
    requires Filed(active, index, hash) && inst.labels !in index && inst.fingerprint == hash(inst.labels)
    requires insts == if hash(inst.labels) in active then active[hash(inst.labels)] else []
    requires forall l :: l in index ==> index[l] != inst
    ensures Filed(active[hash(inst.labels) := insts + [inst]], index[inst.labels := inst], hash)
  {
    var fp := hash(inst.labels);
    var index' := index[inst.labels := inst];
    var insts' := insts + [inst];
    assert insts'[|insts|] == inst;
    forall k | k in active && k != fp ensures Bucket(k, active[k], index', hash) {
      assert forall j :: 0 <= j < |active[k]| ==> Holds(k, active[k][j], index, hash);
    }
    assert forall j :: 0 <= j < |insts| ==> Holds(fp, insts[j], index, hash);
    assert forall j :: 0 <= j < |insts'| ==> Holds(fp, insts'[j], index', hash);
  }

  /** Writing a filtered bucket back, or dropping it when nothing is left. */
  lemma FiledFilter(active: Buckets, index: map<Labels, Instance>, hash: Labels -> Fingerprint, fp: Fingerprint, kept: seq<Instance>)
    requires Filed(active, index, hash) && fp in active
    requires forall i :: 0 <= i < |kept| ==> kept[i] in active[fp]
    requires forall i, j :: 0 <= i < j < |kept| ==> kept[i] != kept[j]
    ensures Filed(if kept == [] then active - {fp} else active[fp := kept],
                  map l | l in index && (hash(l) == fp ==> index[l] in kept) :: index[l], hash)
  {
    var index' := map l | l in index && (hash(l) == fp ==> index[l] in kept) :: index[l];
    forall k | k in active && k != fp ensures Bucket(k, active[k], index', hash) {
      assert forall j :: 0 <= j < |active[k]| ==> Holds(k, active[k][j], index, hash);
    }
    forall i | 0 <= i < |kept| ensures Holds(fp, kept[i], index', hash) {
      var j :| 0 <= j < |active[fp]| && active[fp][j] == kept[i];
      assert Holds(fp, active[fp][j], index, hash);
    }
  }

  lemma FiledHashes(active: Buckets, index: map<Labels, Instance>, hash: Labels -> Fingerprint)
    requires Filed(active, index, hash)
    ensures forall l :: l in index ==> hash(l) in active && index[l].labels == l
  {
  }

  /** A bucket's instances are those of the label sets that hash to it. */
  lemma FiledBucket(active: Buckets, index: map<Labels, Instance>, hash: Labels -> Fingerprint, fp: Fingerprint)
    requires Filed(active, index, hash) && fp in active
    ensures forall i :: 0 <= i < |active[fp]| ==> Holds(fp, active[fp][i], index, hash)
    ensures forall i, j :: 0 <= i < j < |active[fp]| ==> active[fp][i] != active[fp][j]
    ensures forall l :: l in index ==> (hash(l) == fp <==> index[l] in active[fp])
    ensures forall l :: l in index ==> index[l].labels == l
  {
    assert Bucket(fp, active[fp], index, hash);
    forall l | l in index && index[l] in active[fp] ensures hash(l) == fp {
      var i :| 0 <= i < |active[fp]| && active[fp][i] == index[l];
      assert Holds(fp, active[fp][i], index, hash);
    }
  }

  /** A row after the label rules, and the bucket it goes to. */
  datatype Labelled = Labelled(labels: Labels, fp: Fingerprint, value: real)

  datatype Outcome = Duplicate(labels: Labels) | Evaluated(alerts: seq<Alert>, broken: map<string, string>)

  /** Writes every entry of `over` except `skip` on top of `under`. */
  method Overlay(under: map<string, string>, over: map<string, string>, skip: set<string>) returns (r: map<string, string>)
    ensures r == under + (over - skip)
  {
    hide *;
    r := under;
    var todo := over.Keys;
    OverlayStarts(under, over, skip);
    while todo != {}
      invariant todo <= over.Keys
      invariant r == under + (over - skip - todo)
      decreases |todo|
    {
      var k := Pick(todo);
      OverlayStep(under, over, skip, todo, k);
      if k !in skip {
        r := r[k := over[k]];
      }
      todo := todo - {k};
    }
    assert todo == {};
    OverlayEnds(over, skip);
  }

  lemma OverlayStarts(under: map<string, string>, over: map<string, string>, skip: set<string>)
    ensures under + (over - skip - over.Keys) == under
  {
    assert over - skip - over.Keys == map[];
  }

  lemma OverlayStep(under: map<string, string>, over: map<string, string>, skip: set<string>, todo: set<string>, k: string)
    requires k in todo && todo <= over.Keys
    ensures under + (over - skip - (todo - {k}))
         == if k in skip then under + (over - skip - todo) else (under + (over - skip - todo))[k := over[k]]
  {
    var done, more := over - skip - todo, over - skip - (todo - {k});
    if k in skip {
      MapsAgree(more, done);
    } else {
      MapsAgree(more, done[k := over[k]]);
      MapsAgree(under + done[k := over[k]], (under + done)[k := over[k]]);
    }
  }

  lemma OverlayEnds(over: map<string, string>, skip: set<string>)
    ensures over - skip - {} == over - skip
  {
  }

  method ComposeLabels(c: Config, s: Sample) returns (labels: Labels)
    ensures labels == LabelsFor(c, s)
  {
    var pairs := Overlay(c.base.pairs, s.labels.pairs, {LABEL_TEAM});
    pairs := Overlay(pairs, c.src.labels.pairs, {});
    assert c.src.labels.pairs - {} == c.src.labels.pairs;
    labels := Labels(pairs[LABEL_ALERTNAME := c.rule.alert][LABEL_SOURCE := c.src.name]);
  }

  class State {
    var rule: Rule
    var src: Source
    var base: Labels
    var retention: Time

    /** Every tracked instance, grouped by fingerprint. */
    var active: map<Fingerprint, seq<Instance>>

    const hash: Labels -> Fingerprint
    const labelKey: Labels -> string

    /** The state as the plain map it stands for, and the instance behind each entry. */
    ghost var model: Model
    ghost var index: map<Labels, Instance>
    ghost var repr: set<Instance>

    ghost predicate Valid()
      reads `active, `model, `index, `repr, repr
    {
      && Filed(active, index, hash)
      && Agrees()
    }

    ghost predicate Agrees()
      reads `model, `index, `repr, repr
    {
      && index.Keys == model.Keys
      && forall l :: l in index ==> index[l] in repr && index[l].View() == model[l]
    }

    function Cfg(): Config
      reads `rule, `base, `src, `retention
    {
      Config(rule, base, src, retention)
    }

    constructor (r: Rule, groupLabels: Labels, src: Source, resolvedRetention: Time, hash: Labels -> Fingerprint,
                 labelKey: Labels -> string)
      ensures Valid() && model == map[] && repr == {}
      ensures Cfg() == Config(r, BaseLabels(r, groupLabels), src, resolvedRetention)
      ensures LabelsBy(Cfg(), r, groupLabels, src)
      ensures this.hash == hash && this.labelKey == labelKey
    {
      this.rule := r;
      this.src := src;
      this.base := BaseLabels(r, groupLabels);
      this.retention := resolvedRetention;
      this.active := map[];
      this.hash := hash;
      this.labelKey := labelKey;
      this.model, this.index, this.repr := map[], map[], {};
      new;
      BaseDecidesLabels(Cfg(), r, groupLabels, src);
    }

    /** Takes a new definition over, unless it is of a different alert. */
    method Adopt(r: Rule, groupLabels: Labels, src: Source, resolvedRetention: Time) returns (ok: bool)
      requires Valid()
      modifies `rule, `base, `src, `retention
      ensures Valid()
      ensures ok <==> Adoptable(old(Cfg()), Config(r, BaseLabels(r, groupLabels), src, resolvedRetention))
      ensures Cfg() == if ok then Config(r, BaseLabels(r, groupLabels), src, resolvedRetention) else old(Cfg())
      ensures ok ==> LabelsBy(Cfg(), r, groupLabels, src)
    {
      hide LabelsBy, LabelsFor, BaseLabels;
      var newBase := BaseLabels(r, groupLabels);
      if r.alert != rule.alert || newBase != base {
        return false;
      }
      if src.name != this.src.name || src.labels != this.src.labels {
        return false;
      }
      rule := r;
      base := newBase;
      this.src := src;
      retention := resolvedRetention;
      BaseDecidesLabels(Cfg(), r, groupLabels, src);
      return true;
    }

    /** The final label set of each sample. If two coincide, there is no result. */
    method ResolveLabels(samples: seq<Sample>) returns (dup: Option<Labels>, out: seq<Labelled>)
      ensures dup.None? <==> DistinctRows(Cfg(), samples)
      ensures dup.None? ==> Resolved(Cfg(), samples, out)
      ensures dup.Some? ==> Collide(Cfg(), samples, dup.value)
    {
      out := [];
      for k := 0 to |samples|
        invariant Resolved(Cfg(), samples[..k], out)
        invariant DistinctRows(Cfg(), samples[..k])
      {
        var labels := ComposeLabels(Cfg(), samples[k]);
        var fp := hash(labels);
        for j := 0 to |out|
          invariant forall i :: 0 <= i < j ==> out[i].labels != labels
        {
          if out[j].fp == fp && out[j].labels == labels {
            assert samples[..k][j] == samples[j];
            return Some(labels), [];
          }
        }
        out := out + [Labelled(labels, fp, samples[k].value)];
      }
      dup := None;
      assert samples[..|samples|] == samples;
    }

    ghost predicate Resolved(c: Config, samples: seq<Sample>, out: seq<Labelled>) {
      && |out| == |samples|
      && forall i :: 0 <= i < |samples| ==>
           out[i] == Labelled(LabelsFor(c, samples[i]), hash(LabelsFor(c, samples[i])), samples[i].value)
    }

    /** The instance filed under a row's label set, filing a new one where none is or the one
        that is has resolved. */
    method Track(l: Labelled, now: Time) returns (inst: Instance)
      requires Valid() && l.fp == hash(l.labels)
      modifies `active, `model, `index, `repr
      ensures Valid()
      ensures index == old(index)[l.labels := inst]
      ensures model == old(model)[l.labels := Target(Get(old(model), l.labels), l.fp, l.labels, now)]
      ensures inst in repr && old(repr) <= repr && fresh(repr - old(repr))
    {
      hide Filed, Instance.View;
      var insts: seq<Instance> := if l.fp in active then active[l.fp] else [];
      for i := 0 to |insts|
        invariant active == old(active) && index == old(index) && model == old(model) && repr == old(repr)
        invariant forall j :: 0 <= j < i ==> insts[j].labels != l.labels
      {
        if insts[i].labels == l.labels {
          FiledBucket(active, index, hash, l.fp);
          assert Holds(l.fp, insts[i], index, hash) && insts[i].View() == model[l.labels];
          if insts[i].phase != AlertModel.Resolved {
            return insts[i];
          }
          inst := new Instance(l.fp, l.labels, now);
          FiledReplace(active, index, hash, l.fp, i, inst);
          active := active[l.fp := insts[i := inst]];
          Enter(inst);
          return;
        }
      }
      FiledMissing(active, index, hash, l.labels);
      inst := new Instance(l.fp, l.labels, now);
      FiledAppend(active, index, hash, insts, inst);
      active := active[l.fp := insts + [inst]];
      Enter(inst);
    }

    /** Puts a new instance behind its label set. */
    ghost method Enter(inst: Instance)
      requires Agrees() && inst !in repr
      modifies `model, `index, `repr
      ensures Agrees()
      ensures index == old(index)[inst.labels := inst] && model == old(model)[inst.labels := inst.View()]
      ensures repr == old(repr) + {inst}
    {
      index, model, repr := index[inst.labels := inst], model[inst.labels := inst.View()], repr + {inst};
    }

    /** Takes one row over: finds its instance, sets its value, reads its timer, renders it. */
    method ObserveRow(l: Labelled, now: Time) returns (inst: Instance, failures: map<string, string>)
      requires Valid() && l.fp == hash(l.labels)
      modifies `active, `model, `index, `repr, repr
      ensures Valid()
      ensures index == old(index)[l.labels := inst]
      ensures model == old(model)[l.labels := Observe(Get(old(model), l.labels), l.fp, l.labels, l.value, now, rule)]
      ensures old(repr) <= repr && fresh(repr - old(repr))
      ensures failures == rule.render(Touch(Target(Get(old(model), l.labels), l.fp, l.labels, now), l.value, now, rule).alert).failures
    {
      hide Valid, Target, Touch, Render;
      inst := Track(l, now);
      failures := Update(l.labels, inst, l.value, now);
    }

    /** Writes one returned row into its instance. */
    method Update(ghost l: Labels, inst: Instance, value: real, now: Time) returns (failures: map<string, string>)
      requires Valid() && l in index && inst == index[l] && inst in repr
      modifies `model, inst
      ensures Valid()
      ensures model == old(model)[l := Render(Touch(old(model)[l], value, now, rule), rule)]
      ensures failures == rule.render(Touch(old(model)[l], value, now, rule).alert).failures
    {
      hide Filed, Touch, Render;
      Apart(l);
      failures := inst.Write(value, now, rule);
      model := model[l := inst.View()];
    }

    /** Takes every row over, before anything is expired. */
    method TakeRows(labelled: seq<Labelled>, ghost samples: seq<Sample>, now: Time)
      returns (present: set<Instance>, broken: map<string, string>)
      requires Valid() && DistinctRows(Cfg(), samples) && Resolved(Cfg(), samples, labelled)
      modifies `active, `model, `index, `repr, repr
      ensures Valid() && old(repr) <= repr && fresh(repr - old(repr))
      ensures AfterRows(old(model), model, Rows(Cfg(), samples), hash, now, rule)
      ensures forall l :: l in index ==> (index[l] in present <==> l in Rows(Cfg(), samples))
      ensures ReportsFailures(broken, old(model), Rows(Cfg(), samples), hash, now, Cfg())
    {
      hide Valid, Rows, LabelsFor, AfterRows, ReportsFailures, Observe;
      ghost var m0 := model;
      ghost var c := Cfg();
      NoRows(c, m0, hash, now);
      assert samples[..0] == [];
      ghost var rows: map<Labels, real> := map[];
      present, broken := {}, map[];
      for k := 0 to |labelled|
        invariant Valid() && old(repr) <= repr && fresh(repr - old(repr))
        invariant rows == Rows(c, samples[..k])
        invariant AfterRows(m0, model, rows, hash, now, rule)
        invariant forall l :: l in index ==> (index[l] in present <==> l in rows)
        invariant ReportsFailures(broken, m0, rows, hash, now, c)
      {
        var l := labelled[k];
        NewRow(c, samples, k);
        AfterOneMore(m0, model, rows, l.labels, l.value, hash, now, rule);
        ReportsOneMore(broken, m0, rows, l.labels, l.value, hash, now, c);
        var inst, failures := ObserveRow(l, now);
        Apart(l.labels);
        present := present + {inst};
        broken := broken + failures;
        rows := rows[l.labels := l.value];
      }
      assert samples[..|samples|] == samples;
    }

    /** Different label sets have different instances. */
    lemma Apart(l: Labels)
      requires Valid() && l in index
      ensures forall k :: k in index && k != l ==> index[k] != index[l]
    {
    }

    /** Moves one instance on, and says whether its bucket keeps it. */
    method ExpireOne(inst: Instance, now: Time, present: set<Instance>) returns (keep: bool)
      modifies inst
      ensures var next := Fate(old(inst.View()), inst in present, now, Cfg());
              (keep <==> next.Some?) && (keep ==> inst.View() == next.value)
    {
      if inst in present {
        return true;
      }
      if inst.phase == Pending {
        return false;
      }
      if inst.phase == AlertModel.Resolved {
        return !(now - inst.resolvedAt > retention);
      }
      if now - inst.lastSeen < rule.keepFiringFor {
        return true;
      }
      inst.phase := AlertModel.Resolved;
      inst.resolvedAt := now;
      return true;
    }

    /** Filters one bucket, leaving every other instance alone. */
    method FilterBucket(insts: seq<Instance>, now: Time, present: set<Instance>) returns (kept: seq<Instance>)
      requires forall i, j :: 0 <= i < j < |insts| ==> insts[i] != insts[j]
      modifies insts
      ensures forall i :: 0 <= i < |insts| ==>
                var next := Fate(old(insts[i].View()), insts[i] in present, now, Cfg());
                (insts[i] in kept <==> next.Some?) && (next.Some? ==> insts[i].View() == next.value)
      ensures forall k :: 0 <= k < |kept| ==> kept[k] in insts
      ensures forall j, k :: 0 <= j < k < |kept| ==> kept[j] != kept[k]
    {
      kept := [];
      for i := 0 to |insts|
        invariant forall j :: i <= j < |insts| ==> insts[j].View() == old(insts[j].View())
        invariant forall j :: 0 <= j < i ==>
          var next := Fate(old(insts[j].View()), insts[j] in present, now, Cfg());
          (insts[j] in kept <==> next.Some?) && (next.Some? ==> insts[j].View() == next.value)
        invariant forall k :: 0 <= k < |kept| ==> kept[k] in insts[..i]
        invariant forall j, k :: 0 <= j < k < |kept| ==> kept[j] != kept[k]
      {
        assert insts[i] !in insts[..i];
        var keep := ExpireOne(insts[i], now, present);
        if keep {
          kept := kept + [insts[i]];
        }
      }
    }

    /** Handles the instances of one bucket that the latest evaluation did not return. */
    method ExpireBucket(fp: Fingerprint, now: Time, present: set<Instance>, ghost returned: set<Labels>)
      requires Valid() && fp in active
      requires forall l :: l in index ==> (index[l] in present <==> l in returned)
      modifies `active, `model, `index, repr
      ensures Valid()
      ensures index.Keys <= old(index.Keys) && forall l :: l in index ==> index[l] == old(index)[l]
      ensures active.Keys - {fp} == old(active.Keys) - {fp}
      ensures model == Expired(old(model), returned, {fp}, hash, now, Cfg())
    {
      hide Filed, Expired, Fate, Instance.View;
      ghost var m := model;
      SweepBucket(fp, now, present, returned);
      model := map l | l in index :: index[l].View();
      ExpiredPointwise(m, model, returned, {fp}, hash, now, Cfg());
    }

    /** The same, before the model is brought up to date. */
    method SweepBucket(fp: Fingerprint, now: Time, present: set<Instance>, ghost returned: set<Labels>)
      requires Valid() && fp in active
      requires forall l :: l in index ==> (index[l] in present <==> l in returned)
      modifies `active, `index, repr
      ensures Filed(active, index, hash)
      ensures index.Keys <= old(index.Keys) && forall l :: l in index ==> index[l] == old(index)[l]
      ensures active.Keys - {fp} == old(active.Keys) - {fp}
      ensures forall l :: l in old(index) ==> (if l in index then Some(index[l].View()) else None) == FateOnce(model, returned, {fp}, hash, l, now, Cfg())
    {
      hide Filed, Fate, Instance.View;
      var insts := active[fp];
      FiledBucket(active, index, hash, fp);
      var kept := FilterBucket(insts, now, present);
      Refile(fp, kept);
      forall l | l in old(index) && hash(l) == fp ensures old(index)[l] in insts {
      }
    }

    /** Writes a filtered bucket back, or drops it when nothing is left. */
    method Refile(fp: Fingerprint, kept: seq<Instance>)
      requires Filed(active, index, hash) && fp in active
      requires forall i :: 0 <= i < |kept| ==> kept[i] in active[fp]
      requires forall i, j :: 0 <= i < j < |kept| ==> kept[i] != kept[j]
      modifies `active, `index
      ensures Filed(active, index, hash)
      ensures active.Keys - {fp} == old(active.Keys) - {fp}
      ensures index.Keys <= old(index.Keys)
      ensures forall l :: l in old(index) ==> (l in index <==> (hash(l) == fp ==> old(index)[l] in kept))
      ensures forall l :: l in index ==> index[l] == old(index)[l]
    {
      FiledFilter(active, index, hash, fp, kept);
      index := map l | l in index && (hash(l) == fp ==> index[l] in kept) :: index[l];
      active := if kept == [] then active - {fp} else active[fp := kept];
    }

    /** Handles every instance the latest evaluation did not return. */
    method Expire(now: Time, present: set<Instance>, ghost returned: set<Labels>) returns (alerts: seq<Alert>)
      requires Valid()
      requires forall l :: l in index ==> (index[l] in present <==> l in returned)
      modifies `active, `model, `index, repr
      ensures Valid()
      ensures model == Expired(old(model), returned, old(active.Keys), hash, now, Cfg())
      ensures Shows(alerts, model, labelKey)
    {
      hide Valid, Expired, Shows;
      ghost var m, all := model, active.Keys;
      var todo := active.Keys;
      ExpiredStarts(m, returned, hash, now, Cfg());
      assert all - todo == {};
      while todo != {}
        invariant Valid()
        invariant todo <= active.Keys && todo <= all
        invariant forall l :: l in index ==> (index[l] in present <==> l in returned)
        invariant model == Expired(m, returned, all - todo, hash, now, Cfg())
        decreases |todo|
      {
        var fp := Pick(todo);
        ExpireBucket(fp, now, present, returned);
        ExpiredCompose(m, returned, all - todo, fp, hash, now, Cfg());
        assert todo - {fp} <= active.Keys - {fp};
        assert all - todo + {fp} == all - (todo - {fp});
        todo := todo - {fp};
      }
      assert all - todo == all;
      alerts := Snapshot();
    }

    /** Every tracked instance once, in an order the map they are kept in has no part in. */
    method Snapshot() returns (out: seq<Alert>)
      requires Valid()
      ensures Shows(out, model, labelKey)
    {
      hide Ordered, Rank;
      out := [];
      ListsNothing();
      ghost var part: Model := map[];
      var todo := active.Keys;
      while todo != {}
        invariant todo <= active.Keys
        invariant Lists(out, part)
        invariant forall l :: l in part ==> l in model && part[l] == model[l]
        invariant forall l :: l in model ==> (l in part <==> hash(l) !in todo)
        decreases |todo|
      {
        hide Valid, Lists;
        var fp := Pick(todo);
        out, part := ListBucket(fp, out, part);
        todo := todo - {fp};
      }
      assert part == model;
      ghost var unsorted := out;
      out := Sort(Rank(labelKey), out);
      PermutedLists(unsorted, out, model);
    }

    /** Adds one bucket to the list. */
    method ListBucket(fp: Fingerprint, listed: seq<Alert>, ghost start: Model) returns (out: seq<Alert>, ghost part: Model)
      requires Valid() && fp in active && Lists(listed, start)
      requires forall l :: l in start ==> l in model && start[l] == model[l] && hash(l) != fp
      ensures Lists(out, part)
      ensures forall l :: l in part ==> l in model && part[l] == model[l]
      ensures forall l :: l in model ==> (l in part <==> l in start || hash(l) == fp)
    {
      hide Lists, Filed;
      var insts := active[fp];
      FiledBucket(active, index, hash, fp);
      out, part := listed, start;
      for i := 0 to |insts|
        invariant Lists(out, part)
        invariant forall l :: l in part ==> l in model && part[l] == model[l]
        invariant forall l :: l in part ==> l in start || index[l] in insts[..i]
        invariant forall l :: l in start ==> l in part
        invariant forall j :: 0 <= j < i ==> insts[j].labels in part
      {
        var inst := insts[i];
        assert Holds(fp, inst, index, hash);
        ListsOneMore(out, part, inst.labels, inst.View());
        out := out + [inst.Alert()];
        part := part[inst.labels := inst.View()];
      }
      forall l | l in model && hash(l) == fp ensures l in part {
        var j :| 0 <= j < |insts| && insts[j] == index[l];
        assert Holds(fp, insts[j], index, hash);
      }
      assert insts[..|insts|] == insts;
    }

    /** Advances every instance by one evaluation. */
    method Eval(now: Time, samples: seq<Sample>) returns (r: Outcome)
      requires Valid()
      modifies `active, `model, `index, `repr, repr
      ensures Valid() && fresh(repr - old(repr))
      ensures r.Evaluated? <==> DistinctRows(Cfg(), samples)
      ensures r.Duplicate? ==> Collide(Cfg(), samples, r.labels) && model == old(model)
      ensures r.Evaluated? ==> model == Next(old(model), Rows(Cfg(), samples), hash, now, Cfg())
      ensures r.Evaluated? ==> Shows(r.alerts, model, labelKey)
      ensures r.Evaluated? ==> forall a :: a in r.alerts ==> Says(a, old(model), Rows(Cfg(), samples), Cfg().rule)
      ensures r.Evaluated? ==> ReportsFailures(r.broken, old(model), Rows(Cfg(), samples), hash, now, Cfg())
    {
      hide Says, Filed, Rows, Next, Expired, AfterRows, ReportsFailures, Shows;
      var dup, labelled := ResolveLabels(samples);
      if dup.Some? {
        return Duplicate(dup.value);
      }
      ghost var rows := Rows(Cfg(), samples);
      var present, broken := TakeRows(labelled, samples, now);
      ghost var m := model;
      FiledHashes(active, index, hash);
      ExpiredIsNext(old(model), m, rows, active.Keys, hash, now, Cfg());
      var alerts := Expire(now, present, rows.Keys);
      ShownSay(alerts, old(model), rows, hash, labelKey, now, Cfg());
      r := Evaluated(alerts, broken);
    }
  }

  lemma ShownSay(alerts: seq<Alert>, m: Model, rows: map<Labels, real>, hash: Labels -> Fingerprint, labelKey: Labels -> string,
                 now: Time, c: Config)
    requires Shows(alerts, Next(m, rows, hash, now, c), labelKey)
    ensures forall a :: a in alerts ==> Says(a, m, rows, c.rule)
  {
    hide Next, Says, Ordered;
    forall a | a in alerts ensures Says(a, m, rows, c.rule) {
      ListedIn(alerts, Next(m, rows, hash, now, c), a);
      NextSays(m, rows, hash, now, c, a.labels);
    }
  }

  lemma ExpiredStarts(m: Model, returned: set<Labels>, hash: Labels -> Fingerprint, now: Time, c: Config)
    ensures Expired(m, returned, {}, hash, now, c) == m
  {
  }

  lemma NewRow(c: Config, samples: seq<Sample>, k: nat)
    requires DistinctRows(c, samples) && k < |samples|
    ensures LabelsFor(c, samples[k]) !in Rows(c, samples[..k])
    ensures Rows(c, samples[..k + 1]) == Rows(c, samples[..k])[LabelsFor(c, samples[k]) := samples[k].value]
  {
    var l := LabelsFor(c, samples[k]);
    assert samples[..k + 1][..k] == samples[..k];
    if l in Rows(c, samples[..k]) {
      RowsOnly(c, samples[..k], l);
    }
  }
}
