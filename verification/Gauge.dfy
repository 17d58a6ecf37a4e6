/** The gauge of rules that broke while running: which series a pass clears and which it raises. */
module Gauges {
  import opened AlertModel
  import opened Options
  import opened Drifts
  import opened Shapes

  /** How evaluating one source ended. An answer carries how many rows it had and which
      annotations would not render against them. */
  datatype Outcome =
    | NoConnection | Abandoned | QueryFailed | DuplicateRows
    | Answered(shape: Shape, overCost: bool, rows: nat, broken: seq<string>)

  /** A pass over a rule's sources, in source order. */
  datatype Pass = Pass(sources: seq<string>, outcomes: seq<Outcome>)

  /** An annotation that would not render had a row to render against. */
  lemma BrokenNeedsRows(broken: map<string, string>, m: Model, samples: seq<Sample>, hash: Labels -> Fingerprint, now: Time, c: Config)
    requires ReportsFailures(broken, m, Rows(c, samples), hash, now, c) && broken != map[]
    ensures |samples| > 0
  {
    var a :| a in broken;
    var l :| l in Rows(c, samples) && Fails(m, Rows(c, samples), hash, l, now, c, a, broken[a]);
  }

  ghost predicate WellFormed(p: Pass) {
    && |p.sources| == |p.outcomes|
    && (forall i :: 0 <= i < |p.outcomes| && p.outcomes[i].Answered? && p.outcomes[i].broken != [] ==> p.outcomes[i].rows > 0)
  }

  /** No source has the name that stands for the rule as a whole. */
  ghost predicate NamedSources(sources: seq<string>) {
    forall i :: 0 <= i < |sources| ==> sources[i] != ""
  }

  /** A check answered for one source, or for the rule as a whole. */
  datatype Answer = Answer(check: string, source: string)

  function EvalsOf(p: Pass, n: nat): seq<Evaluated>
    requires n <= |p.sources| == |p.outcomes|
  {
    if n == 0 then []
    else
      var o := p.outcomes[n - 1];
      EvalsOf(p, n - 1) + if o.Answered? then [Evaluated(p.sources[n - 1], o.shape, o.overCost)] else []
  }

  function FailuresOf(p: Pass, n: nat): seq<string>
    requires n <= |p.sources| == |p.outcomes|
  {
    if n == 0 then [] else FailuresOf(p, n - 1) + if p.outcomes[n - 1].QueryFailed? then [p.sources[n - 1]] else []
  }

  function Repeat(found: seq<Finding>, times: nat): seq<Finding> {
    if times == 0 then [] else Repeat(found, times - 1) + found
  }

  function TemplatesOf(p: Pass, n: nat, resolve: Resolve): seq<Finding>
    requires n <= |p.sources| == |p.outcomes|
  {
    if n == 0 then []
    else
      var o := p.outcomes[n - 1];
      TemplatesOf(p, n - 1, resolve)
      + if o.Answered? then Repeat(Problem(resolve, TEMPLATE, p.sources[n - 1]), |o.broken|) else []
  }

  function AnswersAt(source: string, o: Outcome): seq<Answer> {
    (if o.Answered? then [Answer(COLUMNS, source), Answer(COST, source)] else [])
    + (if o.Answered? || o.QueryFailed? then [Answer(EXECUTION, source)] else [])
    + (if o.Answered? && o.rows > 0 then [Answer(TEMPLATE, source)] else [])
  }

  function SourceAnswers(p: Pass, n: nat): seq<Answer>
    requires n <= |p.sources| == |p.outcomes|
  {
    if n == 0 then [] else SourceAnswers(p, n - 1) + AnswersAt(p.sources[n - 1], p.outcomes[n - 1])
  }

  /** Two replies can be compared, and a rule with one source has nothing to compare any more. */
  function AnswersOf(p: Pass): seq<Answer>
    requires |p.sources| == |p.outcomes|
  {
    var replied := |EvalsOf(p, |p.sources|)|;
    SourceAnswers(p, |p.sources|)
    + if replied >= 2 || (replied > 0 && |p.sources| < 2) then [Answer(SCHEMA, "")] else []
  }

  /** What a pass has evidence on, pair by pair. */
  method AnsweredChecks(p: Pass) returns (out: seq<Answer>)
    requires |p.sources| == |p.outcomes|
    ensures out == AnswersOf(p)
  {
    out := [];
    var replied := 0;
    for i := 0 to |p.sources|
      invariant out == SourceAnswers(p, i) && replied == |EvalsOf(p, i)|
    {
      var r := p.outcomes[i];
      var here: seq<Answer> := [];
      if r.Answered? {
        replied := replied + 1;
        here := here + [Answer(COLUMNS, p.sources[i]), Answer(COST, p.sources[i])];
      }
      if r.Answered? || r.QueryFailed? {
        here := here + [Answer(EXECUTION, p.sources[i])];
      }
      if r.Answered? && r.rows > 0 {
        here := here + [Answer(TEMPLATE, p.sources[i])];
      }
      out := out + here;
    }
    if replied >= 2 || (replied > 0 && |p.sources| < 2) {
      out := out + [Answer(SCHEMA, "")];
    }
  }

  ghost function FindingsOf(prev: Baseline, p: Pass, resolve: Resolve, schema: Option<int>): seq<Finding>
    requires |p.sources| == |p.outcomes|
  {
    var n := |p.sources|;
    Inspected(prev, EvalsOf(p, n), FailuresOf(p, n), resolve, schema) + TemplatesOf(p, n, resolve)
  }

  /** What one evaluation of a rule reports about the rule. */
  method Evaluate(drift: Drift, p: Pass) returns (problems: seq<Finding>, answered: seq<Answer>)
    requires |p.sources| == |p.outcomes|
    modifies drift
    ensures drift.prev == BaselineAfter(old(drift.prev), EvalsOf(p, |p.sources|))
    ensures problems == FindingsOf(old(drift.prev), p, drift.resolve, drift.schema)
    ensures answered == AnswersOf(p)
  {
    var evals: seq<Evaluated> := [];
    var failures: seq<string> := [];
    var templates: seq<Finding> := [];
    for i := 0 to |p.sources|
      invariant evals == EvalsOf(p, i) && failures == FailuresOf(p, i) && templates == TemplatesOf(p, i, drift.resolve)
      invariant drift.prev == old(drift.prev)
    {
      var r := p.outcomes[i];
      if r.Answered? {
        var found: seq<Finding> := [];
        for k := 0 to |r.broken|
          invariant found == Repeat(Problem(drift.resolve, TEMPLATE, p.sources[i]), k)
        {
          found := found + Problem(drift.resolve, TEMPLATE, p.sources[i]);
        }
        templates := templates + found;
      }
      if r.QueryFailed? {
        failures := failures + [p.sources[i]];
      }
      if !r.Answered? {
        continue;
      }
      evals := evals + [Evaluated(p.sources[i], r.shape, r.overCost)];
    }
    var inspected := drift.Inspect(evals, failures);
    problems := inspected + templates;
    answered := AnsweredChecks(p);
  }

  // Every finding lies in what the pass answered.

  /** A check is answered for a source if an answer names it, or names the whole rule. */
  ghost predicate Covered(answers: seq<Answer>, check: string, source: string) {
    exists i :: 0 <= i < |answers| && answers[i].check == check && (answers[i].source == "" || answers[i].source == source)
  }

  /** What answering a check for a source took. */
  ghost predicate Earned(p: Pass, check: string, source: string)
    requires |p.sources| == |p.outcomes|
  {
    if check == SCHEMA then |EvalsOf(p, |p.sources|)| >= 2 || (|EvalsOf(p, |p.sources|)| > 0 && |p.sources| < 2)
    else exists i :: 0 <= i < |p.sources| && p.sources[i] == source && Speaks(p.outcomes[i], check)
  }

  predicate Speaks(o: Outcome, check: string) {
    || (check in {COLUMNS, COST, EXECUTION} && o.Answered?)
    || (check == EXECUTION && o.QueryFailed?)
    || (check == TEMPLATE && o.Answered? && o.rows > 0)
  }

  ghost predicate SourceSpeaks(p: Pass, n: nat, check: string, source: string)
    requires n <= |p.sources| == |p.outcomes|
  {
    exists i :: 0 <= i < n && p.sources[i] == source && Speaks(p.outcomes[i], check)
  }

  lemma CoveredConcat(a: seq<Answer>, b: seq<Answer>, check: string, source: string)
    ensures Covered(a + b, check, source) <==> Covered(a, check, source) || Covered(b, check, source)
  {
    var c := a + b;
    forall i | 0 <= i < |a| ensures c[i] == a[i] {
    }
    forall i | 0 <= i < |b| ensures c[|a| + i] == b[i] {
    }
    if Covered(b, check, source) {
      var i :| 0 <= i < |b| && b[i].check == check && (b[i].source == "" || b[i].source == source);
      assert c[|a| + i] == b[i];
    }
  }

  lemma CoveredOne(a: Answer, check: string, source: string)
    ensures Covered([a], check, source) <==> a.check == check && (a.source == "" || a.source == source)
  {
    assert [a][0] == a;
  }

  lemma CoveredAt(name: string, o: Outcome, check: string, source: string)
    requires name != ""
    ensures Covered(AnswersAt(name, o), check, source) <==> name == source && Speaks(o, check)
  {
    CoveredOne(Answer(COLUMNS, name), check, source);
    CoveredOne(Answer(COST, name), check, source);
    CoveredOne(Answer(EXECUTION, name), check, source);
    CoveredOne(Answer(TEMPLATE, name), check, source);
    CoveredConcat([Answer(COLUMNS, name)], [Answer(COST, name)], check, source);
    assert [Answer(COLUMNS, name)] + [Answer(COST, name)] == [Answer(COLUMNS, name), Answer(COST, name)];
    var a := if o.Answered? then [Answer(COLUMNS, name), Answer(COST, name)] else [];
    var b := if o.Answered? || o.QueryFailed? then [Answer(EXECUTION, name)] else [];
    var c := if o.Answered? && o.rows > 0 then [Answer(TEMPLATE, name)] else [];
    CoveredConcat(a + b, c, check, source);
    CoveredConcat(a, b, check, source);
    hide Covered;
    assert !Covered([], check, source) by {
      NoneCovered(check, source);
    }
  }

  lemma NoneCovered(check: string, source: string)
    ensures !Covered([], check, source)
  {
  }

  lemma {:induction false} SourceCovered(p: Pass, n: nat, check: string, source: string)
    requires n <= |p.sources| == |p.outcomes| && NamedSources(p.sources)
    ensures Covered(SourceAnswers(p, n), check, source) <==> SourceSpeaks(p, n, check, source)
  {
    if n > 0 {
      SourceCovered(p, n - 1, check, source);
      CoveredAt(p.sources[n - 1], p.outcomes[n - 1], check, source);
      CoveredConcat(SourceAnswers(p, n - 1), AnswersAt(p.sources[n - 1], p.outcomes[n - 1]), check, source);
      hide Covered, Speaks;
    }
  }

  /** A pass answers a check for a source exactly where that source spoke to it: another
      cluster's reply never clears what this one raised. */
  lemma CoveredExactly(p: Pass, check: string, source: string)
    requires |p.sources| == |p.outcomes| && NamedSources(p.sources)
    ensures Covered(AnswersOf(p), check, source) <==> Earned(p, check, source)
  {
    var n := |p.sources|;
    SourceCovered(p, n, check, source);
    CoveredOne(Answer(SCHEMA, ""), check, source);
    NoneCovered(check, source);
    var replied := |EvalsOf(p, n)|;
    var last := if replied >= 2 || (replied > 0 && n < 2) then [Answer(SCHEMA, "")] else [];
    CoveredConcat(SourceAnswers(p, n), last, check, source);
    assert !Speaks(Abandoned, SCHEMA);
    if check == SCHEMA {
      forall o: Outcome ensures !Speaks(o, check) {
      }
    }
    hide Covered, Speaks;
  }

  // What a pass finds, source by source.

  /** The source whose outcome this is answered, and this is what it said. */
  ghost predicate AnsweredAt(p: Pass, i: int, e: Evaluated)
    requires |p.sources| == |p.outcomes|
  {
    0 <= i < |p.sources| && p.outcomes[i].Answered? && e == Evaluated(p.sources[i], p.outcomes[i].shape, p.outcomes[i].overCost)
  }

  lemma {:induction false} EvalsExactly(p: Pass, n: nat, e: Evaluated)
    requires n <= |p.sources| == |p.outcomes|
    ensures e in EvalsOf(p, n) <==> exists i :: i < n && AnsweredAt(p, i, e)
  {
    if n > 0 {
      EvalsExactly(p, n - 1, e);
      assert AnsweredAt(p, n - 1, e) ==> e in EvalsOf(p, n);
    }
  }

  lemma {:induction false} FailuresExactly(p: Pass, n: nat, source: string)
    requires n <= |p.sources| == |p.outcomes|
    ensures source in FailuresOf(p, n) <==> exists i :: 0 <= i < n && p.sources[i] == source && p.outcomes[i].QueryFailed?
  {
    if n > 0 {
      FailuresExactly(p, n - 1, source);
    }
  }

  lemma {:induction false} RepeatExactly(found: seq<Finding>, times: nat, f: Finding)
    ensures f in Repeat(found, times) <==> f in found && times > 0
  {
    if times > 0 {
      RepeatExactly(found, times - 1, f);
    }
  }

  lemma {:induction false} TemplateFindingExactly(p: Pass, n: nat, resolve: Resolve, f: Finding)
    requires n <= |p.sources| == |p.outcomes|
    ensures f in TemplatesOf(p, n, resolve)
       <==> && f.check == "annotations/template" && resolve(f.check, f.source) == Some(f.severity)
            && exists i :: 0 <= i < n && p.sources[i] == f.source && p.outcomes[i].Answered? && p.outcomes[i].broken != []
  {
    if n > 0 {
      TemplateFindingExactly(p, n - 1, resolve, f);
      if p.outcomes[n - 1].Answered? {
        RepeatExactly(Problem(resolve, TEMPLATE, p.sources[n - 1]), |p.outcomes[n - 1].broken|, f);
        ProblemExactly(resolve, TEMPLATE, p.sources[n - 1], f);
      }
      hide Problem, Repeat;
    }
  }

  /** What a pass over a rule's sources finds, each where the check is on: a source that read more
      than its ceilings, a source the query failed against, an annotation that would not render, two
      sources that do not agree; and, as `Drifts.Grounded` has it, a source whose result changed. */
  ghost predicate Found(p: Pass, resolve: Resolve, schema: Option<int>, f: Finding)
    requires |p.sources| == |p.outcomes|
  {
    if f.check == "rule/cost" then
      && resolve(f.check, f.source) == Some(f.severity)
      && exists i :: 0 <= i < |p.sources| && p.sources[i] == f.source && p.outcomes[i].Answered? && p.outcomes[i].overCost
    else if f.check == "rule/execution" then
      && resolve(f.check, f.source) == Some(f.severity)
      && exists i :: 0 <= i < |p.sources| && p.sources[i] == f.source && p.outcomes[i].QueryFailed?
    else if f.check == "annotations/template" then
      && resolve(f.check, f.source) == Some(f.severity)
      && exists i :: 0 <= i < |p.sources| && p.sources[i] == f.source && p.outcomes[i].Answered? && p.outcomes[i].broken != []
    else
      f.check == "rule/source-schema" && f.source == "" && schema == Some(f.severity) && SourcesDiffer(p)
  }

  ghost predicate SourcesDiffer(p: Pass)
    requires |p.sources| == |p.outcomes|
  {
    exists i, j :: 0 <= i < |p.sources| && 0 <= j < |p.sources| && p.outcomes[i].Answered? && p.outcomes[j].Answered?
                   && TypesOf(p.outcomes[i].shape) != TypesOf(p.outcomes[j].shape)
  }

  lemma FindingsExactly(prev: Baseline, p: Pass, resolve: Resolve, schema: Option<int>, f: Finding)
    requires |p.sources| == |p.outcomes|
    ensures f in FindingsOf(prev, p, resolve, schema)
       <==> if f.check == "rule/columns" then Grounded(f, prev, EvalsOf(p, |p.sources|), FailuresOf(p, |p.sources|), resolve, schema)
            else Found(p, resolve, schema, f)
  {
    hide Inspected, TemplatesOf, FailuresOf, EvalsOf, TypesOf, SourcesDiffer, Grounded, Found;
    var n := |p.sources|;
    var evals, failures := EvalsOf(p, n), FailuresOf(p, n);
    InspectedExactly(prev, evals, failures, resolve, schema, f);
    TemplateFindingExactly(p, n, resolve, f);
    GroundedIsFound(p, prev, resolve, schema, f);
  }

  lemma GroundedIsFound(p: Pass, prev: Baseline, resolve: Resolve, schema: Option<int>, f: Finding)
    requires |p.sources| == |p.outcomes|
    ensures var template := f.check == "annotations/template" && resolve(f.check, f.source) == Some(f.severity)
              && exists i :: 0 <= i < |p.sources| && p.sources[i] == f.source && p.outcomes[i].Answered? && p.outcomes[i].broken != [];
            Grounded(f, prev, EvalsOf(p, |p.sources|), FailuresOf(p, |p.sources|), resolve, schema) || template
            <==> if f.check == "rule/columns" then Grounded(f, prev, EvalsOf(p, |p.sources|), FailuresOf(p, |p.sources|), resolve, schema)
                 else Found(p, resolve, schema, f)
  {
    hide EvalsOf, FailuresOf, TypesOf, SourcesDiffer, Drifted, BaselineAfter;
    ChecksDiffer();
    FailuresExactly(p, |p.sources|, f.source);
    OverCostExactly(p, f.source);
    ShapesDifferExactly(p);
  }

  lemma OverCostExactly(p: Pass, source: string)
    requires |p.sources| == |p.outcomes|
    ensures (exists k :: 0 <= k < |EvalsOf(p, |p.sources|)| && EvalsOf(p, |p.sources|)[k].source == source
                         && EvalsOf(p, |p.sources|)[k].overCost)
       <==> exists i :: 0 <= i < |p.sources| && p.sources[i] == source && p.outcomes[i].Answered? && p.outcomes[i].overCost
  {
    var evals := EvalsOf(p, |p.sources|);
    hide EvalsOf;
    if k :| 0 <= k < |evals| && evals[k].source == source && evals[k].overCost {
      var i := AnswerBehind(p, k);
    }
    if i :| 0 <= i < |p.sources| && p.sources[i] == source && p.outcomes[i].Answered? && p.outcomes[i].overCost {
      var k := AnswerAhead(p, i);
    }
  }

  lemma ShapesDifferExactly(p: Pass)
    requires |p.sources| == |p.outcomes|
    ensures var evals := EvalsOf(p, |p.sources|);
            (exists i, j :: 0 <= i < |evals| && 0 <= j < |evals| && TypesOf(evals[i].shape) != TypesOf(evals[j].shape))
            <==> SourcesDiffer(p)
  {
    var evals := EvalsOf(p, |p.sources|);
    hide EvalsOf, TypesOf;
    if k, l :| 0 <= k < |evals| && 0 <= l < |evals| && TypesOf(evals[k].shape) != TypesOf(evals[l].shape) {
      var i := AnswerBehind(p, k);
      var j := AnswerBehind(p, l);
      assert TypesOf(p.outcomes[i].shape) != TypesOf(p.outcomes[j].shape);
    }
    if i, j :| 0 <= i < |p.sources| && 0 <= j < |p.sources| && p.outcomes[i].Answered? && p.outcomes[j].Answered?
               && TypesOf(p.outcomes[i].shape) != TypesOf(p.outcomes[j].shape) {
      var k := AnswerAhead(p, i);
      var l := AnswerAhead(p, j);
      assert TypesOf(evals[k].shape) != TypesOf(evals[l].shape);
    }
  }

  lemma AnswerBehind(p: Pass, k: nat) returns (i: nat)
    requires |p.sources| == |p.outcomes| && k < |EvalsOf(p, |p.sources|)|
    ensures AnsweredAt(p, i, EvalsOf(p, |p.sources|)[k])
  {
    EvalsExactly(p, |p.sources|, EvalsOf(p, |p.sources|)[k]);
    i :| i < |p.sources| && AnsweredAt(p, i, EvalsOf(p, |p.sources|)[k]);
  }

  lemma AnswerAhead(p: Pass, i: nat) returns (k: nat)
    requires |p.sources| == |p.outcomes| && i < |p.sources| && p.outcomes[i].Answered?
    ensures k < |EvalsOf(p, |p.sources|)| && AnsweredAt(p, i, EvalsOf(p, |p.sources|)[k])
  {
    var e := Evaluated(p.sources[i], p.outcomes[i].shape, p.outcomes[i].overCost);
    assert AnsweredAt(p, i, e);
    EvalsExactly(p, |p.sources|, e);
    k :| 0 <= k < |EvalsOf(p, |p.sources|)| && EvalsOf(p, |p.sources|)[k] == e;
  }

  /** Every source of a pass is another one. */
  ghost predicate DistinctSources(sources: seq<string>) {
    forall i, j :: 0 <= i < j < |sources| ==> sources[i] != sources[j]
  }

  lemma {:induction false} EvalsDistinct(p: Pass, n: nat)
    requires n <= |p.sources| == |p.outcomes| && DistinctSources(p.sources)
    ensures DistinctEvals(EvalsOf(p, n))
  {
    if n > 0 {
      EvalsDistinct(p, n - 1);
      forall e | e in EvalsOf(p, n - 1) ensures e.source != p.sources[n - 1] {
        EvalsExactly(p, n - 1, e);
        var i :| i < n - 1 && AnsweredAt(p, i, e);
      }
    }
  }

  /** A changed result, after any passes before: reported exactly where the source answered, its last
      successful result had another shape, and the check is on. */
  lemma ChangeExactly(passes: seq<seq<Evaluated>>, p: Pass, resolve: Resolve, schema: Option<int>, source: string, severity: int)
    requires |p.sources| == |p.outcomes| && DistinctSources(p.sources)
    ensures Finding("rule/columns", severity, source) in FindingsOf(BaselineOf(passes), p, resolve, schema)
       <==> && resolve("rule/columns", source) == Some(severity) && LastShape(passes, source).Some?
            && exists i :: 0 <= i < |p.sources| && p.sources[i] == source && p.outcomes[i].Answered?
                 && TypesOf(LastShape(passes, source).value) != TypesOf(p.outcomes[i].shape)
  {
    var n := |p.sources|;
    var f := Finding(COLUMNS, severity, source);
    var evals := EvalsOf(p, n);
    EvalsDistinct(p, n);
    DriftExactly(passes, evals, resolve, source, severity);
    ChecksDiffer();
    FailureFindingExactly(FailuresOf(p, n), resolve, f);
    SchemaFindingExactly(evals, schema, f);
    TemplateFindingExactly(p, n, resolve, f);
    hide EvalsOf, FailuresOf, TemplatesOf, EvalFindings, FailureFindings, SchemaFindings, TypesOf, LastShape, BaselineOf, BaselineAfter;
    if e :| e in evals && e.source == source && LastShape(passes, source).Some?
            && TypesOf(LastShape(passes, source).value) != TypesOf(e.shape) {
      EvalsExactly(p, n, e);
      var i :| i < n && AnsweredAt(p, i, e);
    }
    if i :| 0 <= i < n && p.sources[i] == source && p.outcomes[i].Answered? && LastShape(passes, source).Some?
            && TypesOf(LastShape(passes, source).value) != TypesOf(p.outcomes[i].shape) {
      var k := AnswerAhead(p, i);
      assert evals[k] in evals;
    }
  }

  /** Nothing is raised that the same pass did not answer, so nothing it raises can outlive the
      next pass that answers it. */
  lemma EveryFindingIsAnswered(prev: Baseline, p: Pass, resolve: Resolve, schema: Option<int>, f: Finding)
    requires WellFormed(p) && f in FindingsOf(prev, p, resolve, schema)
    ensures Earned(p, f.check, f.source)
    ensures f.check == SCHEMA ==> f.source == ""
  {
    var n := |p.sources|;
    ChecksDiffer();
    FindingsExactly(prev, p, resolve, schema, f);
    if f.check == "rule/columns" {
      var k :| 0 <= k < |EvalsOf(p, n)| && EvalsOf(p, n)[k].source == f.source;
      var i := AnswerBehind(p, k);
      assert Speaks(p.outcomes[i], f.check);
    } else if f.check == "rule/source-schema" {
      ShapesDifferExactly(p);
      TwoReplies(EvalsOf(p, n));
    } else {
      var i :| 0 <= i < n && p.sources[i] == f.source && Speaks(p.outcomes[i], f.check);
    }
    hide FindingsOf, EvalsOf, FailuresOf, Drifted, BaselineAfter, TypesOf;
  }

  /** Results that differ are two results. */
  lemma TwoReplies(evals: seq<Evaluated>)
    requires exists i, j :: 0 <= i < |evals| && 0 <= j < |evals| && TypesOf(evals[i].shape) != TypesOf(evals[j].shape)
    ensures |evals| >= 2
  {
    hide TypesOf;
  }

  // The gauge.

  datatype Series = Series(rule: string, check: string, severity: int, team: string, file: string, source: string)

  /** Whose rule it is, and where. */
  datatype Owner = Owner(rule: string, team: string, file: string)

  function SeriesOf(owner: Owner, f: Finding): Series {
    Series(owner.rule, f.check, f.severity, owner.team, owner.file, f.source)
  }

  predicate Owns(owner: Owner, s: Series) {
    s.rule == owner.rule && s.file == owner.file
  }

  ghost function Raised(owner: Owner, problems: seq<Finding>): set<Series> {
    set f | f in problems :: SeriesOf(owner, f)
  }

  /** What is answered is cleared, then what was found is raised. */
  ghost function Rebuilt(series: set<Series>, owner: Owner, answers: seq<Answer>, problems: seq<Finding>): set<Series> {
    (set s | s in series && !(Owns(owner, s) && Covered(answers, s.check, s.source))) + Raised(owner, problems)
  }

  class Gauge {
    var series: set<Series>

    constructor ()
      ensures series == {}
    {
      series := {};
    }

    method DeletePartialMatch(rule: string, file: string, check: string, source: Option<string>)
      modifies this
      ensures series == set s | s in old(series)
                && !(s.rule == rule && s.file == file && s.check == check && (source.Some? ==> s.source == source.value))
    {
      series := set s | s in series && !(s.rule == rule && s.file == file && s.check == check && (source.Some? ==> s.source == source.value));
    }

    method Set(s: Series)
      modifies this
      ensures series == old(series) + {s}
    {
      series := series + {s};
    }

    /** Rebuilds one rule's series from one pass, as both feeds do. */
    method Rebuild(owner: Owner, answers: seq<Answer>, problems: seq<Finding>)
      modifies this
      ensures series == Rebuilt(old(series), owner, answers, problems)
    {
      for i := 0 to |answers|
        invariant series == Rebuilt(old(series), owner, answers[..i], [])
      {
        var a := answers[i];
        DeletePartialMatch(owner.rule, owner.file, a.check, if a.source == "" then None else Some(a.source));
        assert answers[..i + 1] == answers[..i] + [a];
        forall s: Series
          ensures Covered(answers[..i + 1], s.check, s.source)
             <==> Covered(answers[..i], s.check, s.source) || (a.check == s.check && (a.source == "" || a.source == s.source)) {
          CoveredConcat(answers[..i], [a], s.check, s.source);
          CoveredOne(a, s.check, s.source);
        }
        hide Covered;
      }
      assert answers[..|answers|] == answers;
      for i := 0 to |problems|
        invariant series == Rebuilt(old(series), owner, answers, problems[..i])
      {
        assert problems[..i + 1] == problems[..i] + [problems[i]];
        Set(SeriesOf(owner, problems[i]));
      }
      assert problems[..|problems|] == problems;
    }
  }

  /** After a pass, the rule's series for what its sources spoke to are exactly its findings, under
      the rule's name, team and file, and every other series is as it was. */
  lemma GaugeExactly(before: set<Series>, owner: Owner, prev: Baseline, p: Pass, resolve: Resolve, schema: Option<int>, s: Series)
    requires WellFormed(p) && NamedSources(p.sources)
    ensures s in Rebuilt(before, owner, AnswersOf(p), FindingsOf(prev, p, resolve, schema))
       <==> if s.rule == owner.rule && s.file == owner.file && Earned(p, s.check, s.source)
            then s.team == owner.team && Finding(s.check, s.severity, s.source) in FindingsOf(prev, p, resolve, schema)
            else s in before
  {
    CoveredExactly(p, s.check, s.source);
    var problems := FindingsOf(prev, p, resolve, schema);
    forall f | f in problems ensures Earned(p, f.check, f.source) {
      EveryFindingIsAnswered(prev, p, resolve, schema, f);
    }
    hide Covered, Earned, FindingsOf, AnswersOf;
    RaisedExactly(owner, problems, s);
  }

  lemma RaisedExactly(owner: Owner, problems: seq<Finding>, s: Series)
    ensures s in Raised(owner, problems)
       <==> && s.rule == owner.rule && s.team == owner.team && s.file == owner.file
            && Finding(s.check, s.severity, s.source) in problems
  {
    if Finding(s.check, s.severity, s.source) in problems {
      assert SeriesOf(owner, Finding(s.check, s.severity, s.source)) in Raised(owner, problems);
    }
  }
}
