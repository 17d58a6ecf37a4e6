/** Comparing the shapes a rule's results have: with the last ones, and between its sources. */
module Drifts {
  import opened Options
  import opened Shapes

  const COLUMNS := "rule/columns"
  const COST := "rule/cost"
  const EXECUTION := "rule/execution"
  const TEMPLATE := "annotations/template"
  const SCHEMA := "rule/source-schema"
  const ATTRIBUTE_KEY := "rule/attribute-key"

  datatype Finding = Finding(check: string, severity: int, source: string)

  /** One source's successful evaluation, and whether it read more than its ceilings. */
  datatype Evaluated = Evaluated(source: string, shape: Shape, overCost: bool)

  /** What a check reports at against a source: nothing where it is off or exempted. */
  type Resolve = (string, string) -> Option<int>

  function Problem(resolve: Resolve, check: string, source: string): seq<Finding> {
    var severity := resolve(check, source);
    if severity.None? then [] else [Finding(check, severity.value, source)]
  }

  type Baseline = map<string, Shape>

  /** A source has drifted if its result is not of the shape of its last successful one. */
  predicate Drifted(prev: Baseline, e: Evaluated) {
    e.source in prev && TypesOf(prev[e.source]) != TypesOf(e.shape)
  }

  function SourceFindings(prev: Baseline, e: Evaluated, resolve: Resolve): seq<Finding> {
    (if Drifted(prev, e) then Problem(resolve, COLUMNS, e.source) else [])
    + if e.overCost then Problem(resolve, COST, e.source) else []
  }

  function BaselineAfter(prev: Baseline, evals: seq<Evaluated>): Baseline {
    if evals == [] then prev
    else BaselineAfter(prev, evals[..|evals| - 1])[evals[|evals| - 1].source := evals[|evals| - 1].shape]
  }

  function EvalFindings(prev: Baseline, evals: seq<Evaluated>, resolve: Resolve): seq<Finding> {
    if evals == [] then []
    else
      var n := |evals| - 1;
      EvalFindings(prev, evals[..n], resolve) + SourceFindings(BaselineAfter(prev, evals[..n]), evals[n], resolve)
  }

  function FailureFindings(failures: seq<string>, resolve: Resolve): seq<Finding> {
    if failures == [] then []
    else FailureFindings(failures[..|failures| - 1], resolve) + Problem(resolve, EXECUTION, failures[|failures| - 1])
  }

  /** Some two of the results differ. */
  predicate Disagree(evals: seq<Evaluated>) {
    exists i :: 0 < i < |evals| && TypesOf(evals[i].shape) != TypesOf(evals[0].shape)
  }

  /** Comparing every result with the first finds any two that differ. */
  lemma DisagreeExactly(evals: seq<Evaluated>)
    ensures Disagree(evals) <==>
              exists i, j :: 0 <= i < |evals| && 0 <= j < |evals| && TypesOf(evals[i].shape) != TypesOf(evals[j].shape)
  {
    hide TypesOf;
    if i, j :| 0 <= i < |evals| && 0 <= j < |evals| && TypesOf(evals[i].shape) != TypesOf(evals[j].shape) {
      assert TypesOf(evals[i].shape) != TypesOf(evals[0].shape) || TypesOf(evals[j].shape) != TypesOf(evals[0].shape);
    }
  }

  /** One finding however many sources differ, against none of them in particular. */
  function SchemaFindings(evals: seq<Evaluated>, schema: Option<int>): seq<Finding> {
    if schema.Some? && Disagree(evals) then [Finding(SCHEMA, schema.value, "")] else []
  }

  function Inspected(prev: Baseline, evals: seq<Evaluated>, failures: seq<string>, resolve: Resolve, schema: Option<int>): seq<Finding> {
    EvalFindings(prev, evals, resolve) + FailureFindings(failures, resolve) + SchemaFindings(evals, schema)
  }

  class Drift {
    const resolve: Resolve

    /** What the comparison between sources reports at, which no one source decides. */
    const schema: Option<int>

    /** The shape of each source's last successful evaluation. */
    var prev: Baseline

    constructor (resolve: Resolve, schema: Option<int>)
      ensures prev == map[] && this.resolve == resolve && this.schema == schema
    {
      this.resolve, this.schema, prev := resolve, schema, map[];
    }

    method Inspect(evals: seq<Evaluated>, failures: seq<string>) returns (problems: seq<Finding>)
      modifies this
      ensures prev == BaselineAfter(old(prev), evals)
      ensures problems == Inspected(old(prev), evals, failures, resolve, schema)
    {
      problems := [];
      for i := 0 to |evals|
        invariant prev == BaselineAfter(old(prev), evals[..i])
        invariant problems == EvalFindings(old(prev), evals[..i], resolve)
      {
        assert evals[..i + 1][..i] == evals[..i];
        var found := InspectOne(evals[i]);
        problems := problems + found;
      }
      assert evals[..|evals|] == evals;
      ghost var ofEvals := problems;
      for i := 0 to |failures|
        invariant prev == BaselineAfter(old(prev), evals)
        invariant problems == ofEvals + FailureFindings(failures[..i], resolve)
      {
        assert failures[..i + 1][..i] == failures[..i];
        problems := problems + Problem(resolve, EXECUTION, failures[i]);
      }
      assert failures[..|failures|] == failures;
      var disagreed := Disagreements(evals);
      problems := problems + disagreed;
    }

    /** Compares one result with the last, and takes it as the next one to compare with. */
    method InspectOne(e: Evaluated) returns (found: seq<Finding>)
      modifies this
      ensures prev == old(prev)[e.source := e.shape]
      ensures found == SourceFindings(old(prev), e, resolve)
    {
      var held := Get(prev, e.source);
      prev := prev[e.source := e.shape];
      found := [];
      if held.Some? {
        var diff := Differences(held.value, e.shape);
        if diff != [] {
          found := found + Problem(resolve, COLUMNS, e.source);
        }
      }
      if e.overCost {
        found := found + Problem(resolve, COST, e.source);
      }
    }

    method Disagreements(evals: seq<Evaluated>) returns (found: seq<Finding>)
      ensures found == SchemaFindings(evals, schema)
    {
      if |evals| < 2 || schema.None? {
        return [];
      }
      var differs := false;
      for i := 1 to |evals|
        invariant differs <==> exists j :: 0 < j < i && TypesOf(evals[j].shape) != TypesOf(evals[0].shape)
      {
        var diff := Differences(evals[0].shape, evals[i].shape);
        if diff != [] {
          differs := true;
        }
      }
      found := if differs then [Finding(SCHEMA, schema.value, "")] else [];
    }
  }

  // The baseline over a whole run of passes.

  /** The shape of the last pass before the `n`-th in which a source answered. */
  ghost function LastShape(passes: seq<seq<Evaluated>>, source: string): Option<Shape> {
    if passes == [] then None
    else
      var last := AnswerOf(passes[|passes| - 1], source);
      if last.Some? then last else LastShape(passes[..|passes| - 1], source)
  }

  ghost function AnswerOf(evals: seq<Evaluated>, source: string): Option<Shape> {
    if evals == [] then None
    else if evals[|evals| - 1].source == source then Some(evals[|evals| - 1].shape)
    else AnswerOf(evals[..|evals| - 1], source)
  }

  ghost function BaselineOf(passes: seq<seq<Evaluated>>): Baseline {
    if passes == [] then map[] else BaselineAfter(BaselineOf(passes[..|passes| - 1]), passes[|passes| - 1])
  }

  lemma {:induction false} BaselineAfterAt(prev: Baseline, evals: seq<Evaluated>, source: string)
    ensures Get(BaselineAfter(prev, evals), source)
         == if AnswerOf(evals, source).Some? then AnswerOf(evals, source) else Get(prev, source)
  {
    if evals != [] {
      BaselineAfterAt(prev, evals[..|evals| - 1], source);
    }
  }

  /** Whatever failed in between, a result is compared with the source's last real one. */
  lemma {:induction false} BaselineIsLastShape(passes: seq<seq<Evaluated>>, source: string)
    ensures Get(BaselineOf(passes), source) == LastShape(passes, source)
  {
    if passes != [] {
      var n := |passes| - 1;
      BaselineIsLastShape(passes[..n], source);
      BaselineAfterAt(BaselineOf(passes[..n]), passes[n], source);
    }
  }

  ghost predicate DistinctEvals(evals: seq<Evaluated>) {
    forall i, j :: 0 <= i < j < |evals| ==> evals[i].source != evals[j].source
  }

  lemma {:induction false} NotAnsweredBefore(evals: seq<Evaluated>, source: string)
    requires forall i :: 0 <= i < |evals| ==> evals[i].source != source
    ensures AnswerOf(evals, source) == None
  {
    if evals != [] {
      NotAnsweredBefore(evals[..|evals| - 1], source);
    }
  }

  /** A pass reports a changed result for a source exactly if the source answered, its last
      successful result had another shape, and the check is on for it. */
  lemma {:induction false} DriftExactly(passes: seq<seq<Evaluated>>, evals: seq<Evaluated>, resolve: Resolve, source: string, severity: int)
    requires DistinctEvals(evals)
    ensures Finding(COLUMNS, severity, source) in EvalFindings(BaselineOf(passes), evals, resolve)
       <==> && resolve(COLUMNS, source) == Some(severity)
            && exists e :: e in evals && e.source == source
                 && LastShape(passes, source).Some? && TypesOf(LastShape(passes, source).value) != TypesOf(e.shape)
  {
    if evals != [] {
      var n := |evals| - 1;
      var e := evals[n];
      var prev := BaselineOf(passes);
      DriftExactly(passes, evals[..n], resolve, source, severity);
      assert evals == evals[..n] + [e];
      var before := BaselineAfter(prev, evals[..n]);
      assert EvalFindings(prev, evals, resolve) == EvalFindings(prev, evals[..n], resolve) + SourceFindings(before, e, resolve);
      if e.source == source {
        NotAnsweredBefore(evals[..n], source);
        BaselineAfterAt(prev, evals[..n], source);
        BaselineIsLastShape(passes, source);
        assert forall x :: x in evals[..n] ==> x.source != source;
        assert e in evals;
      }
      hide TypesOf, LastShape, BaselineOf, BaselineAfter, EvalFindings, SourceFindings;
      ChecksDiffer();
      SourceFindingExactly(before, e, resolve, Finding(COLUMNS, severity, source));
    }
  }

  // What is found, and in what order.

  lemma ChecksDiffer()
    ensures COLUMNS != COST && COST != EXECUTION && COLUMNS != EXECUTION
    ensures SCHEMA !in {COLUMNS, COST, EXECUTION} && TEMPLATE !in {COLUMNS, COST, EXECUTION, SCHEMA}
  {
    assert |COLUMNS| == 12 && |COST| == 9 && |EXECUTION| == 14 && |SCHEMA| == 18 && |TEMPLATE| == 20;
  }

  lemma ProblemExactly(resolve: Resolve, check: string, source: string, f: Finding)
    ensures f in Problem(resolve, check, source) <==> f.check == check && f.source == source && resolve(check, source) == Some(f.severity)
  {
  }

  lemma SourceFindingExactly(prev: Baseline, e: Evaluated, resolve: Resolve, f: Finding)
    ensures f in SourceFindings(prev, e, resolve)
       <==> && f.source == e.source && resolve(f.check, f.source) == Some(f.severity)
            && ((f.check == "rule/columns" && Drifted(prev, e)) || (f.check == "rule/cost" && e.overCost))
  {
    hide Drifted;
  }

  ghost predicate FoundAt(prev: Baseline, evals: seq<Evaluated>, k: int, resolve: Resolve, f: Finding) {
    0 <= k < |evals| && f in SourceFindings(BaselineAfter(prev, evals[..k]), evals[k], resolve)
  }

  lemma {:induction false} EvalFindingExactly(prev: Baseline, evals: seq<Evaluated>, resolve: Resolve, f: Finding)
    ensures f in EvalFindings(prev, evals, resolve) <==> exists k :: FoundAt(prev, evals, k, resolve, f)
  {
    hide SourceFindings, BaselineAfter;
    if evals != [] {
      var n := |evals| - 1;
      EvalFindingExactly(prev, evals[..n], resolve, f);
      forall k | 0 <= k < n ensures FoundAt(prev, evals[..n], k, resolve, f) <==> FoundAt(prev, evals, k, resolve, f) {
        assert evals[..n][..k] == evals[..k];
      }
      assert FoundAt(prev, evals, n, resolve, f) <==> f in SourceFindings(BaselineAfter(prev, evals[..n]), evals[n], resolve);
      assert EvalFindings(prev, evals, resolve)
          == EvalFindings(prev, evals[..n], resolve) + SourceFindings(BaselineAfter(prev, evals[..n]), evals[n], resolve);
      hide EvalFindings;
    }
  }

  lemma {:induction false} FailureFindingExactly(failures: seq<string>, resolve: Resolve, f: Finding)
    ensures f in FailureFindings(failures, resolve)
       <==> f.check == "rule/execution" && f.source in failures && resolve(f.check, f.source) == Some(f.severity)
  {
    if failures != [] {
      var n := |failures| - 1;
      FailureFindingExactly(failures[..n], resolve, f);
      assert failures == failures[..n] + [failures[n]];
    }
  }

  lemma SchemaFindingExactly(evals: seq<Evaluated>, schema: Option<int>, f: Finding)
    ensures f in SchemaFindings(evals, schema)
       <==> && f.check == "rule/source-schema" && f.source == "" && schema == Some(f.severity)
            && exists i, j :: 0 <= i < |evals| && 0 <= j < |evals| && TypesOf(evals[i].shape) != TypesOf(evals[j].shape)
  {
    DisagreeExactly(evals);
    hide Disagree, TypesOf;
  }

  /** What an inspection finds: a changed result, a result over its ceilings, a failed query or two
      results that differ, each where the check is on, and nothing else. */
  ghost predicate Grounded(f: Finding, prev: Baseline, evals: seq<Evaluated>, failures: seq<string>, resolve: Resolve, schema: Option<int>) {
    if f.check == "rule/columns" then
      && resolve(f.check, f.source) == Some(f.severity)
      && exists k :: 0 <= k < |evals| && evals[k].source == f.source && Drifted(BaselineAfter(prev, evals[..k]), evals[k])
    else if f.check == "rule/cost" then
      resolve(f.check, f.source) == Some(f.severity) && exists k :: 0 <= k < |evals| && evals[k].source == f.source && evals[k].overCost
    else if f.check == "rule/execution" then
      resolve(f.check, f.source) == Some(f.severity) && f.source in failures
    else
      && f.check == "rule/source-schema" && f.source == "" && schema == Some(f.severity)
      && exists i, j :: 0 <= i < |evals| && 0 <= j < |evals| && TypesOf(evals[i].shape) != TypesOf(evals[j].shape)
  }

  lemma InspectedExactly(prev: Baseline, evals: seq<Evaluated>, failures: seq<string>, resolve: Resolve, schema: Option<int>, f: Finding)
    ensures f in Inspected(prev, evals, failures, resolve, schema) <==> Grounded(f, prev, evals, failures, resolve, schema)
  {
    hide Drifted, TypesOf, SourceFindings, EvalFindings, FailureFindings, SchemaFindings, BaselineAfter;
    ChecksDiffer();
    EvalFindingExactly(prev, evals, resolve, f);
    forall k | 0 <= k < |evals|
      ensures FoundAt(prev, evals, k, resolve, f)
         <==> && f.source == evals[k].source && resolve(f.check, f.source) == Some(f.severity)
              && ((f.check == "rule/columns" && Drifted(BaselineAfter(prev, evals[..k]), evals[k]))
                  || (f.check == "rule/cost" && evals[k].overCost)) {
      SourceFindingExactly(BaselineAfter(prev, evals[..k]), evals[k], resolve, f);
    }
    FailureFindingExactly(failures, resolve, f);
    SchemaFindingExactly(evals, schema, f);
  }

  /** Which part of the pass a finding is from. */
  function Part(f: Finding): int {
    if f.check == "rule/columns" || f.check == "rule/cost" then 0 else if f.check == "rule/execution" then 1 else 2
  }

  /** What was evaluated comes first, then what failed, and the comparison between sources last. */
  lemma InspectedInOrder(prev: Baseline, evals: seq<Evaluated>, failures: seq<string>, resolve: Resolve, schema: Option<int>, i: nat, j: nat)
    requires i < j < |Inspected(prev, evals, failures, resolve, schema)|
    ensures Part(Inspected(prev, evals, failures, resolve, schema)[i]) <= Part(Inspected(prev, evals, failures, resolve, schema)[j])
  {
    hide Drifted, TypesOf, SourceFindings, EvalFindings, FailureFindings, SchemaFindings, BaselineAfter, Part;
    var a, b, c := EvalFindings(prev, evals, resolve), FailureFindings(failures, resolve), SchemaFindings(evals, schema);
    var all := Inspected(prev, evals, failures, resolve, schema);
    assert all == a + b + c;
    forall f | f in a ensures Part(f) == 0 {
      EvalFindingExactly(prev, evals, resolve, f);
      var k :| FoundAt(prev, evals, k, resolve, f);
      SourceFindingExactly(BaselineAfter(prev, evals[..k]), evals[k], resolve, f);
      PartOf(f);
    }
    forall f | f in b ensures Part(f) == 1 {
      FailureFindingExactly(failures, resolve, f);
      PartOf(f);
    }
    forall f | f in c ensures Part(f) == 2 {
      SchemaFindingExactly(evals, schema, f);
      PartOf(f);
    }
    assert i < |a| ==> all[i] in a;
    assert j < |a| ==> all[j] in a;
    assert |a| <= i < |a| + |b| ==> all[i] == b[i - |a|];
    assert |a| <= j < |a| + |b| ==> all[j] == b[j - |a|];
    assert |a| + |b| <= i ==> all[i] == c[i - |a| - |b|];
    assert |a| + |b| <= j ==> all[j] == c[j - |a| - |b|];
  }

  lemma PartOf(f: Finding)
    ensures f.check == "rule/columns" || f.check == "rule/cost" ==> Part(f) == 0
    ensures f.check == "rule/execution" ==> Part(f) == 1
    ensures f.check == "rule/source-schema" ==> Part(f) == 2
  {
    ChecksDiffer();
  }

  ghost predicate Once(found: seq<Finding>) {
    forall i, j :: 0 <= i < j < |found| ==> found[i] != found[j]
  }

  lemma OnceBoth(a: seq<Finding>, b: seq<Finding>)
    requires Once(a) && Once(b) && forall f :: f in a ==> f !in b
    ensures Once(a + b)
  {
    forall i, j | 0 <= i < j < |a + b| ensures (a + b)[i] != (a + b)[j] {
      assert i < |a| ==> (a + b)[i] in a;
      assert j >= |a| ==> (a + b)[j] in b;
    }
  }

  lemma {:induction false} EvalFindingsOnce(prev: Baseline, evals: seq<Evaluated>, resolve: Resolve)
    requires DistinctEvals(evals)
    ensures Once(EvalFindings(prev, evals, resolve))
  {
    if evals != [] {
      var n := |evals| - 1;
      var last := BaselineAfter(prev, evals[..n]);
      EvalFindingsOnce(prev, evals[..n], resolve);
      SourceFindingsOnce(last, evals[n], resolve);
      forall f | f in EvalFindings(prev, evals[..n], resolve) ensures f !in SourceFindings(last, evals[n], resolve) {
        EvalFindingExactly(prev, evals[..n], resolve, f);
        var k :| FoundAt(prev, evals[..n], k, resolve, f);
        SourceFindingExactly(BaselineAfter(prev, evals[..n][..k]), evals[..n][k], resolve, f);
        SourceFindingExactly(last, evals[n], resolve, f);
      }
      hide SourceFindings, BaselineAfter, FoundAt;
      OnceBoth(EvalFindings(prev, evals[..n], resolve), SourceFindings(last, evals[n], resolve));
    }
  }

  lemma SourceFindingsOnce(prev: Baseline, e: Evaluated, resolve: Resolve)
    ensures Once(SourceFindings(prev, e, resolve))
  {
    ChecksDiffer();
    hide Drifted;
  }

  lemma {:induction false} FailureFindingsOnce(failures: seq<string>, resolve: Resolve)
    requires forall i, j :: 0 <= i < j < |failures| ==> failures[i] != failures[j]
    ensures Once(FailureFindings(failures, resolve))
  {
    if failures != [] {
      var n := |failures| - 1;
      FailureFindingsOnce(failures[..n], resolve);
      forall f | f in FailureFindings(failures[..n], resolve) ensures f !in Problem(resolve, EXECUTION, failures[n]) {
        FailureFindingExactly(failures[..n], resolve, f);
      }
      OnceBoth(FailureFindings(failures[..n], resolve), Problem(resolve, EXECUTION, failures[n]));
    }
  }

  /** Nothing is found twice in one pass. */
  lemma InspectedOnce(prev: Baseline, evals: seq<Evaluated>, failures: seq<string>, resolve: Resolve, schema: Option<int>)
    requires DistinctEvals(evals) && forall i, j :: 0 <= i < j < |failures| ==> failures[i] != failures[j]
    ensures Once(Inspected(prev, evals, failures, resolve, schema))
  {
    hide Drifted, SourceFindings, EvalFindings, FailureFindings, BaselineAfter, Disagree;
    var a, b, c := EvalFindings(prev, evals, resolve), FailureFindings(failures, resolve), SchemaFindings(evals, schema);
    EvalFindingsOnce(prev, evals, resolve);
    FailureFindingsOnce(failures, resolve);
    ChecksDiffer();
    forall f ensures f in a ==> f !in b && f !in c {
      EvalFindingExactly(prev, evals, resolve, f);
      if k :| FoundAt(prev, evals, k, resolve, f) {
        SourceFindingExactly(BaselineAfter(prev, evals[..k]), evals[k], resolve, f);
      }
      FailureFindingExactly(failures, resolve, f);
      SchemaFindingExactly(evals, schema, f);
    }
    forall f ensures f in b ==> f !in c {
      FailureFindingExactly(failures, resolve, f);
      SchemaFindingExactly(evals, schema, f);
    }
    OnceBoth(a, b);
    OnceBoth(a + b, c);
  }
}
