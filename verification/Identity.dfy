/** Which label sets a definition can produce, and so which tracked instances a reload strands. */
module Identity {
  import opened Options
  import opened AlertModel

  ghost predicate Producible(c: Config, l: Labels) {
    exists s :: LabelsFor(c, s) == l
  }

  predicate Owned(k: string) {
    k == LABEL_ALERTNAME || k == LABEL_SOURCE
  }

  /** The team a definition gives every alert, which no column can change. */
  function FileTeam(c: Config): Option<string> {
    if LABEL_TEAM in c.src.labels.pairs then Some(c.src.labels.pairs[LABEL_TEAM]) else Get(c.base.pairs, LABEL_TEAM)
  }

  /** The label sets of a definition, told apart without guessing the row behind them. */
  ghost predicate Fits(c: Config, l: Labels) {
    && Get(l.pairs, LABEL_ALERTNAME) == Some(c.rule.alert)
    && Get(l.pairs, LABEL_SOURCE) == Some(c.src.name)
    && Get(l.pairs, LABEL_TEAM) == FileTeam(c)
    && (forall k :: k in c.src.labels.pairs && !Owned(k) ==> Get(l.pairs, k) == Some(c.src.labels.pairs[k]))
    && (forall k :: k in c.base.pairs ==> k in l.pairs)
  }

  /** The exact image of the label rules. */
  lemma ProducibleExactly(c: Config, l: Labels)
    ensures Producible(c, l) <==> Fits(c, l)
  {
    if Fits(c, l) {
      var s := Sample(l, 0.0);
      var made := LabelsFor(c, s);
      assert forall k :: k in l.pairs ==> k in made.pairs && made.pairs[k] == l.pairs[k];
      assert made.pairs == l.pairs;
    }
  }

  /** No label of the definition is hidden behind one that goes before it. */
  ghost predicate NothingHidden(c: Config) {
    && (forall k :: k in c.base.pairs ==> !Owned(k) && k !in c.src.labels.pairs)
    && (forall k :: k in c.src.labels.pairs ==> !Owned(k))
  }

  /** Both take the team from the source, or both from the rule and the group. */
  predicate TeamAlike(a: Config, b: Config) {
    LABEL_TEAM in a.src.labels.pairs <==> LABEL_TEAM in b.src.labels.pairs
  }

  /** An accepted definition labels every sample alike, and where none of the labels hides another
      every definition that does is accepted. */
  lemma AdoptableExactly(held: Config, loaded: Config)
    ensures Adoptable(held, loaded) ==> forall s :: LabelsFor(held, s) == LabelsFor(loaded, s)
    ensures NothingHidden(held) && NothingHidden(loaded) && TeamAlike(held, loaded) ==>
              (Adoptable(held, loaded) <==> forall s :: LabelsFor(held, s) == LabelsFor(loaded, s))
  {
    if NothingHidden(held) && NothingHidden(loaded) && TeamAlike(held, loaded) && forall s :: LabelsFor(held, s) == LabelsFor(loaded, s) {
      SameLabelsAgree(held, loaded);
    }
  }

  lemma SameLabelsAgree(held: Config, loaded: Config)
    requires NothingHidden(held) && NothingHidden(loaded) && TeamAlike(held, loaded)
    requires forall s :: LabelsFor(held, s) == LabelsFor(loaded, s)
    ensures Adoptable(held, loaded)
  {
    LabelAt(held, Sample(Labels(map[]), 0.0), LABEL_ALERTNAME);
    LabelAt(loaded, Sample(Labels(map[]), 0.0), LABEL_ALERTNAME);
    LabelAt(held, Sample(Labels(map[]), 0.0), LABEL_SOURCE);
    LabelAt(loaded, Sample(Labels(map[]), 0.0), LABEL_SOURCE);
    OwnedNamesDiffer();
    forall k
      ensures Get(held.base.pairs, k) == Get(loaded.base.pairs, k)
      ensures Get(held.src.labels.pairs, k) == Get(loaded.src.labels.pairs, k) {
      SameAt(held, loaded, k);
    }
    MapsAgree(held.base.pairs, loaded.base.pairs);
    MapsAgree(held.src.labels.pairs, loaded.src.labels.pairs);
  }

  /** Two samples that differ in one column tell whether the source or the column decides it. */
  lemma SameAt(held: Config, loaded: Config, k: string)
    requires NothingHidden(held) && NothingHidden(loaded) && TeamAlike(held, loaded)
    requires forall s :: LabelsFor(held, s) == LabelsFor(loaded, s)
    ensures Get(held.base.pairs, k) == Get(loaded.base.pairs, k)
    ensures Get(held.src.labels.pairs, k) == Get(loaded.src.labels.pairs, k)
  {
    var none, a, b := Sample(Labels(map[]), 0.0), Sample(Labels(map[k := "a"]), 0.0), Sample(Labels(map[k := "b"]), 0.0);
    assert "a"[0] == 'a' && "b"[0] == 'b';
    forall s | s == none || s == a || s == b ensures Get(LabelsFor(held, s).pairs, k) == Get(LabelsFor(loaded, s).pairs, k) {
      assert LabelsFor(held, s) == LabelsFor(loaded, s);
    }
    LabelAt(held, none, k);
    LabelAt(held, a, k);
    LabelAt(held, b, k);
    LabelAt(loaded, none, k);
    LabelAt(loaded, a, k);
    LabelAt(loaded, b, k);
    hide LabelsFor;
  }

  lemma LabelAt(c: Config, s: Sample, k: string)
    ensures Get(LabelsFor(c, s).pairs, k) ==
              if k == LABEL_SOURCE then Some(c.src.name)
              else if k == LABEL_ALERTNAME then Some(c.rule.alert)
              else if k in c.src.labels.pairs then Some(c.src.labels.pairs[k])
              else if k in s.labels.pairs && k != LABEL_TEAM then Some(s.labels.pairs[k])
              else Get(c.base.pairs, k)
  {
  }

  /** Two definitions of one alert name and source whose fixed labels do not contradict. */
  ghost predicate Compatible(a: Config, b: Config) {
    && a.rule.alert == b.rule.alert
    && a.src.name == b.src.name
    && FileTeam(a) == FileTeam(b)
    && forall k :: k in a.src.labels.pairs && k in b.src.labels.pairs && !Owned(k) ==> a.src.labels.pairs[k] == b.src.labels.pairs[k]
  }

  /** A refused reload strands every instance exactly when the two definitions contradict;
      otherwise some label set belongs to both, and could have been carried over. */
  lemma StrandsEverythingExactly(held: Config, loaded: Config)
    ensures (forall l :: Producible(held, l) ==> !Producible(loaded, l)) <==> !Compatible(held, loaded)
  {
    if Compatible(held, loaded) {
      var q := held.base.pairs + loaded.base.pairs + held.src.labels.pairs + loaded.src.labels.pairs;
      var s := Sample(Labels(q), 0.0);
      var l := LabelsFor(held, s);
      var l' := LabelsFor(loaded, s);
      forall k | k in l.pairs || k in l'.pairs ensures Get(l.pairs, k) == Get(l'.pairs, k) {
      }
      assert forall k :: k in l.pairs <==> Get(l.pairs, k).Some?;
      assert forall k :: k in l'.pairs <==> Get(l'.pairs, k).Some?;
      assert l.pairs == l'.pairs;
      assert Producible(held, l) && Producible(loaded, l);
    } else {
      forall l | Producible(held, l) ensures !Producible(loaded, l) {
        ProducibleExactly(held, l);
        ProducibleExactly(loaded, l);
      }
    }
  }

  /** A changed rule label refuses the reload though a row overriding it produces the same alert. */
  lemma RefusalCanKeepAnAlert() returns (held: Config, loaded: Config, l: Labels)
    ensures !Adoptable(held, loaded) && Producible(held, l) && Producible(loaded, l)
  {
    var rule := Rule("HighLatency", Labels(map[]), 0, 0, (a: Alert) => Rendered(map[], map[]));
    var src := Source("east", Labels(map[]));
    held := Config(rule, Labels(map["severity" := "warning"]), src, 0);
    loaded := Config(rule, Labels(map["severity" := "critical"]), src, 0);
    var s := Sample(Labels(map["severity" := "page"]), 0.0);
    l := LabelsFor(held, s);
    assert held.base.pairs["severity"] == "warning" && "warning"[0] == 'w';
    assert LabelsFor(loaded, s).pairs == l.pairs;
    assert LabelsFor(loaded, s) == l;
  }
}
