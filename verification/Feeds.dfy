/** One gauge, two kinds of writer: the evaluations of rules, and the passes that re-check them. */
module Feeds {
  import opened Options
  import opened Drifts
  import opened Gauges

  /** How sampling one source for a re-check ended. */
  datatype Sampled = Unconnected | CheckOff | NoSlot | Refused | Sampled(findings: nat)

  /** The sources that answered, and what the answers were. */
  ghost function AskedOf(sources: seq<string>, outcomes: seq<Sampled>, n: nat): seq<string>
    requires n <= |sources| == |outcomes|
  {
    if n == 0 then []
    else AskedOf(sources, outcomes, n - 1) + if outcomes[n - 1].CheckOff? || outcomes[n - 1].Sampled? then [sources[n - 1]] else []
  }

  ghost function RecheckFindings(sources: seq<string>, outcomes: seq<Sampled>, resolve: Resolve, n: nat): seq<Finding>
    requires n <= |sources| == |outcomes|
  {
    if n == 0 then []
    else
      RecheckFindings(sources, outcomes, resolve, n - 1)
      + if outcomes[n - 1].Sampled? then Repeat(Problem(resolve, ATTRIBUTE_KEY, sources[n - 1]), outcomes[n - 1].findings) else []
  }

  /** Samples one rule against each of its sources. A check that is off is answered unasked. */
  method RecheckOnce(sources: seq<string>, outcomes: seq<Sampled>, resolve: Resolve)
    returns (problems: seq<Finding>, asked: seq<string>, refused: seq<string>)
    requires |sources| == |outcomes|
    ensures asked == AskedOf(sources, outcomes, |sources|)
    ensures problems == RecheckFindings(sources, outcomes, resolve, |sources|)
    ensures forall s :: s in refused <==> exists i :: 0 <= i < |sources| && sources[i] == s && outcomes[i].Refused?
  {
    problems, asked, refused := [], [], [];
    for i := 0 to |sources|
      invariant asked == AskedOf(sources, outcomes, i)
      invariant problems == RecheckFindings(sources, outcomes, resolve, i)
      invariant forall s :: s in refused <==> exists j :: 0 <= j < i && sources[j] == s && outcomes[j].Refused?
    {
      match outcomes[i] {
        case CheckOff =>
          asked := asked + [sources[i]];
        case Refused =>
          refused := refused + [sources[i]];
        case Sampled(findings) =>
          asked := asked + [sources[i]];
          var found := Repeated(Problem(resolve, ATTRIBUTE_KEY, sources[i]), findings);
          problems := problems + found;
        case _ =>
      }
    }
  }

  /** A problem is raised once for each finding of it. */
  method Repeated(found: seq<Finding>, times: nat) returns (out: seq<Finding>)
    ensures out == Repeat(found, times)
  {
    out := [];
    for k := 0 to times
      invariant out == Repeat(found, k)
    {
      out := out + found;
    }
  }

  function AskedAnswers(asked: seq<string>): seq<Answer> {
    seq(|asked|, i requires 0 <= i < |asked| => Answer(ATTRIBUTE_KEY, asked[i]))
  }

  /** A source was asked if its check is off or it was sampled, and not if nothing came of it. */
  lemma {:induction false} AskedExactly(sources: seq<string>, outcomes: seq<Sampled>, n: nat, source: string)
    requires n <= |sources| == |outcomes|
    ensures source in AskedOf(sources, outcomes, n)
       <==> exists i :: 0 <= i < n && sources[i] == source && (outcomes[i].CheckOff? || outcomes[i].Sampled?)
  {
    if n > 0 {
      AskedExactly(sources, outcomes, n - 1, source);
    }
  }

  /** What a re-check finds: a sampled source with something to report, where the check is on. */
  lemma {:induction false} RecheckFindingExactly(sources: seq<string>, outcomes: seq<Sampled>, resolve: Resolve, n: nat, f: Finding)
    requires n <= |sources| == |outcomes|
    ensures f in RecheckFindings(sources, outcomes, resolve, n)
       <==> && f.check == "rule/attribute-key" && resolve(f.check, f.source) == Some(f.severity)
            && exists i :: 0 <= i < n && sources[i] == f.source && outcomes[i].Sampled? && outcomes[i].findings > 0
  {
    if n > 0 {
      RecheckFindingExactly(sources, outcomes, resolve, n - 1, f);
      if outcomes[n - 1].Sampled? {
        RepeatExactly(Problem(resolve, ATTRIBUTE_KEY, sources[n - 1]), outcomes[n - 1].findings, f);
        ProblemExactly(resolve, ATTRIBUTE_KEY, sources[n - 1], f);
      }
      hide Problem, Repeat;
    }
  }

  /** After a re-check, its own check's series for the sources that answered are exactly what was
      found, and every other series is as it was. */
  lemma RecheckExactly(before: set<Series>, owner: Owner, sources: seq<string>, outcomes: seq<Sampled>, resolve: Resolve, s: Series)
    requires |sources| == |outcomes| && NamedSources(sources)
    ensures var n := |sources|;
            var asked, problems := AskedOf(sources, outcomes, n), RecheckFindings(sources, outcomes, resolve, n);
            s in Rebuilt(before, owner, AskedAnswers(asked), problems)
            <==> if s.rule == owner.rule && s.file == owner.file && s.check == "rule/attribute-key" && s.source in asked
                 then s.team == owner.team && Finding(s.check, s.severity, s.source) in problems
                 else s in before
  {
    var n := |sources|;
    var asked, problems := AskedOf(sources, outcomes, n), RecheckFindings(sources, outcomes, resolve, n);
    AskedExactly(sources, outcomes, n, "");
    var answers := AskedAnswers(asked);
    forall source ensures Covered(answers, ATTRIBUTE_KEY, source) <==> source in asked {
      if source in asked {
        var i :| 0 <= i < |asked| && asked[i] == source;
        assert answers[i] == Answer(ATTRIBUTE_KEY, source);
      }
    }
    assert Covered(answers, s.check, s.source) ==> s.check == ATTRIBUTE_KEY;
    forall f | f in problems ensures f.check == ATTRIBUTE_KEY && f.source in asked {
      RecheckFindingExactly(sources, outcomes, resolve, n, f);
      AskedExactly(sources, outcomes, n, f.source);
    }
    hide RecheckFindings, AskedOf;
    RaisedExactly(owner, problems, s);
  }

  // Passes of different rules and feeds at the same time.

  /** One write to the gauge. */
  datatype Op = Clear(rule: string, file: string, check: string, source: Option<string>) | Raise(series: Series)

  /** The part of the gauge a write belongs to. */
  datatype Slot = Slot(rule: string, file: string, check: string)

  function SlotOf(s: Series): Slot {
    Slot(s.rule, s.file, s.check)
  }

  function SlotOfOp(op: Op): Slot {
    if op.Clear? then Slot(op.rule, op.file, op.check) else SlotOf(op.series)
  }

  ghost function ApplyOp(g: set<Series>, op: Op): set<Series> {
    match op
    case Clear(rule, file, check, source) =>
      set s | s in g && !(s.rule == rule && s.file == file && s.check == check && (source.Some? ==> s.source == source.value))
    case Raise(s) => g + {s}
  }

  ghost function RunOps(g: set<Series>, ops: seq<Op>): set<Series> {
    if ops == [] then g else ApplyOp(RunOps(g, ops[..|ops| - 1]), ops[|ops| - 1])
  }

  function ClearsOf(owner: Owner, answers: seq<Answer>): seq<Op> {
    seq(|answers|, i requires 0 <= i < |answers| =>
      Clear(owner.rule, owner.file, answers[i].check, if answers[i].source == "" then None else Some(answers[i].source)))
  }

  function RaisesOf(owner: Owner, problems: seq<Finding>): seq<Op> {
    seq(|problems|, i requires 0 <= i < |problems| => Raise(SeriesOf(owner, problems[i])))
  }

  /** The writes of one pass, in order. */
  function PassOps(owner: Owner, answers: seq<Answer>, problems: seq<Finding>): seq<Op> {
    ClearsOf(owner, answers) + RaisesOf(owner, problems)
  }

  lemma {:induction false} RunClears(g: set<Series>, owner: Owner, answers: seq<Answer>)
    ensures RunOps(g, ClearsOf(owner, answers)) == Rebuilt(g, owner, answers, [])
  {
    if answers == [] {
      assert forall s: Series :: !Covered([], s.check, s.source);
    } else {
      var n := |answers| - 1;
      RunClears(g, owner, answers[..n]);
      assert ClearsOf(owner, answers)[..n] == ClearsOf(owner, answers[..n]);
      assert answers == answers[..n] + [answers[n]];
      forall s: Series
        ensures Covered(answers, s.check, s.source)
           <==> || Covered(answers[..n], s.check, s.source)
                || (answers[n].check == s.check && (answers[n].source == "" || answers[n].source == s.source)) {
        CoveredConcat(answers[..n], [answers[n]], s.check, s.source);
        CoveredOne(answers[n], s.check, s.source);
      }
      hide Covered;
    }
  }

  lemma {:induction false} RunPass(g: set<Series>, owner: Owner, answers: seq<Answer>, problems: seq<Finding>)
    ensures RunOps(g, PassOps(owner, answers, problems)) == Rebuilt(g, owner, answers, problems)
    decreases |problems|
  {
    var ops := PassOps(owner, answers, problems);
    if problems == [] {
      assert ops == ClearsOf(owner, answers);
      RunClears(g, owner, answers);
    } else {
      var n := |problems| - 1;
      RunPass(g, owner, answers, problems[..n]);
      assert ops[..|ops| - 1] == PassOps(owner, answers, problems[..n]);
      assert problems == problems[..n] + [problems[n]];
      hide Covered;
    }
  }

  ghost function Slice(g: set<Series>, slots: set<Slot>): set<Series> {
    set s | s in g && SlotOf(s) in slots
  }

  /** The writes that belong to some slots, in the order they happened. */
  ghost function OpsIn(ops: seq<Op>, slots: set<Slot>): seq<Op> {
    if ops == [] then []
    else OpsIn(ops[..|ops| - 1], slots) + if SlotOfOp(ops[|ops| - 1]) in slots then [ops[|ops| - 1]] else []
  }

  /** What a slot holds depends on the writes to it alone. */
  lemma {:induction false} RunSliced(g: set<Series>, ops: seq<Op>, slots: set<Slot>)
    ensures Slice(RunOps(g, ops), slots) == Slice(RunOps(g, OpsIn(ops, slots)), slots)
  {
    if ops != [] {
      var n := |ops| - 1;
      RunSliced(g, ops[..n], slots);
      var mine := OpsIn(ops[..n], slots);
      var a, b := RunOps(g, ops[..n]), RunOps(g, mine);
      ApplySliced(a, b, ops[n], slots);
      if SlotOfOp(ops[n]) in slots {
        assert (mine + [ops[n]])[..|mine|] == mine;
      } else {
        assert OpsIn(ops, slots) == mine;
      }
    }
  }

  lemma ApplySliced(a: set<Series>, b: set<Series>, op: Op, slots: set<Slot>)
    requires Slice(a, slots) == Slice(b, slots)
    ensures Slice(ApplyOp(a, op), slots) == Slice(if SlotOfOp(op) in slots then ApplyOp(b, op) else b, slots)
  {
    var after := if SlotOfOp(op) in slots then ApplyOp(b, op) else b;
    forall s | SlotOf(s) in slots ensures s in ApplyOp(a, op) <==> s in after {
      assert s in a <==> s in Slice(a, slots);
      assert s in b <==> s in Slice(b, slots);
    }
  }

  /** The slots an evaluation of a rule may write to, and those its re-check may. */
  function EvalSlots(owner: Owner): set<Slot> {
    set check | check in {COLUMNS, COST, EXECUTION, TEMPLATE, SCHEMA} :: Slot(owner.rule, owner.file, check)
  }

  function RecheckSlots(owner: Owner): set<Slot> {
    {Slot(owner.rule, owner.file, ATTRIBUTE_KEY)}
  }

  /** The two feeds never write to one slot, and neither do two rules with different names or files. */
  lemma SlotsAreDisjoint(a: Owner, b: Owner)
    ensures EvalSlots(a) !! RecheckSlots(b)
    ensures a.rule != b.rule || a.file != b.file ==> EvalSlots(a) !! EvalSlots(b) && RecheckSlots(a) !! RecheckSlots(b)
  {
    assert ATTRIBUTE_KEY !in {COLUMNS, COST, EXECUTION, TEMPLATE, SCHEMA};
  }

  ghost predicate Writes(ops: seq<Op>, slots: set<Slot>) {
    forall i :: 0 <= i < |ops| ==> SlotOfOp(ops[i]) in slots
  }

  ghost predicate ChecksIn(answers: seq<Answer>, problems: seq<Finding>, checks: set<string>) {
    && (forall i :: 0 <= i < |answers| ==> answers[i].check in checks)
    && (forall i :: 0 <= i < |problems| ==> problems[i].check in checks)
  }

  /** A pass writes to its own rule's slots, for the checks it answered or found something for. */
  lemma PassWrites(owner: Owner, answers: seq<Answer>, problems: seq<Finding>, checks: set<string>, slots: set<Slot>)
    requires ChecksIn(answers, problems, checks)
    requires forall check :: check in checks ==> Slot(owner.rule, owner.file, check) in slots
    ensures Writes(PassOps(owner, answers, problems), slots)
  {
  }

  lemma OneCheckWrites(owner: Owner, answers: seq<Answer>, problems: seq<Finding>, check: string)
    requires forall i :: 0 <= i < |answers| ==> answers[i].check == check
    requires forall f :: f in problems ==> f.check == check
    ensures Writes(PassOps(owner, answers, problems), {Slot(owner.rule, owner.file, check)})
  {
    PassWrites(owner, answers, problems, {check}, {Slot(owner.rule, owner.file, check)});
  }

  lemma EvalPassStaysInside(owner: Owner, prev: Baseline, p: Pass, resolve: Resolve, schema: Option<int>)
    requires WellFormed(p)
    ensures Writes(PassOps(owner, AnswersOf(p), FindingsOf(prev, p, resolve, schema)), EvalSlots(owner))
  {
    var answers, problems := AnswersOf(p), FindingsOf(prev, p, resolve, schema);
    var checks := {COLUMNS, COST, EXECUTION, TEMPLATE, SCHEMA};
    SourceAnswerChecks(p, |p.sources|);
    forall f | f in problems ensures f.check in checks {
      EveryFindingIsAnswered(prev, p, resolve, schema, f);
    }
    assert ChecksIn(answers, problems, checks);
    hide AnswersOf, FindingsOf, Earned, Writes, PassOps;
    PassWrites(owner, answers, problems, checks, EvalSlots(owner));
  }

  lemma {:induction false} SourceAnswerChecks(p: Pass, n: nat)
    requires n <= |p.sources| == |p.outcomes|
    ensures forall i :: 0 <= i < |SourceAnswers(p, n)| ==> SourceAnswers(p, n)[i].check in {COLUMNS, COST, EXECUTION, TEMPLATE}
  {
    if n > 0 {
      SourceAnswerChecks(p, n - 1);
    }
  }

  lemma RecheckStaysInside(owner: Owner, sources: seq<string>, outcomes: seq<Sampled>, resolve: Resolve, asked: seq<string>, problems: seq<Finding>)
    requires |sources| == |outcomes|
    requires asked == AskedOf(sources, outcomes, |sources|)
    requires problems == RecheckFindings(sources, outcomes, resolve, |sources|)
    ensures Writes(PassOps(owner, AskedAnswers(asked), problems), RecheckSlots(owner))
  {
    hide RecheckFindings, AskedOf, Writes, PassOps;
    forall f | f in problems ensures f.check == ATTRIBUTE_KEY {
      RecheckFindingExactly(sources, outcomes, resolve, |sources|, f);
    }
    OneCheckWrites(owner, AskedAnswers(asked), problems, ATTRIBUTE_KEY);
  }

  // Any number of rules and both feeds at once.

  /** What one pass has to write: an evaluation of a rule, or a re-check of it. */
  datatype Job =
    | Evaluation(prev: Baseline, pass: Pass, schema: Option<int>)
    | Recheck(sources: seq<string>, outcomes: seq<Sampled>)

  ghost predicate Proper(j: Job) {
    match j
    case Evaluation(_, p, _) => WellFormed(p) && NamedSources(p.sources)
    case Recheck(sources, outcomes) => |sources| == |outcomes| && NamedSources(sources)
  }

  ghost function AnsweredBy(j: Job): seq<Answer>
    requires Proper(j)
  {
    match j
    case Evaluation(_, p, _) => AnswersOf(p)
    case Recheck(sources, outcomes) => AskedAnswers(AskedOf(sources, outcomes, |sources|))
  }

  ghost function FoundBy(j: Job, resolve: Resolve): seq<Finding>
    requires Proper(j)
  {
    match j
    case Evaluation(prev, p, schema) => FindingsOf(prev, p, resolve, schema)
    case Recheck(sources, outcomes) => RecheckFindings(sources, outcomes, resolve, |sources|)
  }

  /** One rule's evaluations or its re-checks, one pass after another. */
  datatype Feed = Feed(owner: Owner, resolve: Resolve, rechecks: bool, jobs: seq<Job>)

  ghost predicate Fed(f: Feed) {
    forall j :: j in f.jobs ==> Proper(j) && j.Recheck? == f.rechecks
  }

  function SlotsOf(f: Feed): set<Slot> {
    if f.rechecks then RecheckSlots(f.owner) else EvalSlots(f.owner)
  }

  ghost function JobOps(f: Feed, n: nat): seq<Op>
    requires Fed(f) && n < |f.jobs|
  {
    PassOps(f.owner, AnsweredBy(f.jobs[n]), FoundBy(f.jobs[n], f.resolve))
  }

  /** The writes of a feed's first `n` passes. */
  ghost function FeedOps(f: Feed, n: nat): seq<Op>
    requires Fed(f) && n <= |f.jobs|
  {
    if n == 0 then [] else FeedOps(f, n - 1) + JobOps(f, n - 1)
  }

  /** The gauge after a feed's first `n` passes with nothing else writing to it. */
  ghost function FeedAlone(g: set<Series>, f: Feed, n: nat): set<Series>
    requires Fed(f) && n <= |f.jobs|
  {
    if n == 0 then g
    else Rebuilt(FeedAlone(g, f, n - 1), f.owner, AnsweredBy(f.jobs[n - 1]), FoundBy(f.jobs[n - 1], f.resolve))
  }

  /** One write, and which feed made it. */
  datatype Write = Write(feed: nat, op: Op)

  ghost function Ops(all: seq<Write>): seq<Op> {
    if all == [] then [] else Ops(all[..|all| - 1]) + [all[|all| - 1].op]
  }

  ghost function By(all: seq<Write>, w: nat): seq<Op> {
    if all == [] then [] else By(all[..|all| - 1], w) + if all[|all| - 1].feed == w then [all[|all| - 1].op] else []
  }

  /** Every feed's writes, in its own order, and nobody else's. */
  ghost predicate Interleaves(all: seq<Write>, feeds: seq<Feed>)
    requires forall f :: f in feeds ==> Fed(f)
  {
    && (forall i :: 0 <= i < |all| ==> all[i].feed < |feeds|)
    && (forall w :: 0 <= w < |feeds| ==> By(all, w) == FeedOps(feeds[w], |feeds[w].jobs|))
  }

  predicate OtherRule(a: Owner, b: Owner) {
    a.rule != b.rule || a.file != b.file
  }

  /** No two feeds are for one rule, unless one evaluates it and the other re-checks it. */
  ghost predicate Apart(feeds: seq<Feed>) {
    forall v, w :: 0 <= v < w < |feeds| ==> feeds[v].rechecks != feeds[w].rechecks || OtherRule(feeds[v].owner, feeds[w].owner)
  }

  lemma JobStaysInside(f: Feed, n: nat)
    requires Fed(f) && n < |f.jobs|
    ensures Writes(JobOps(f, n), SlotsOf(f))
  {
    assert f.jobs[n] in f.jobs;
    match f.jobs[n]
    case Evaluation(prev, p, schema) =>
      EvalPassStaysInside(f.owner, prev, p, f.resolve, schema);
    case Recheck(sources, outcomes) =>
      RecheckStaysInside(f.owner, sources, outcomes, f.resolve, AskedOf(sources, outcomes, |sources|),
                         RecheckFindings(sources, outcomes, f.resolve, |sources|));
  }

  lemma {:induction false} FeedStaysInside(f: Feed, n: nat)
    requires Fed(f) && n <= |f.jobs|
    ensures Writes(FeedOps(f, n), SlotsOf(f))
  {
    hide JobOps, SlotsOf, Fed;
    if n > 0 {
      FeedStaysInside(f, n - 1);
      JobStaysInside(f, n - 1);
    }
  }

  lemma FeedsAreApart(feeds: seq<Feed>, v: nat, w: nat)
    requires Apart(feeds) && v < |feeds| && w < |feeds| && v != w
    ensures SlotsOf(feeds[v]) !! SlotsOf(feeds[w])
  {
    SlotsAreDisjoint(feeds[v].owner, feeds[w].owner);
    SlotsAreDisjoint(feeds[w].owner, feeds[v].owner);
    hide EvalSlots, RecheckSlots;
  }

  lemma {:induction false} MadeBy(all: seq<Write>, i: nat)
    requires i < |all|
    ensures all[i].op in By(all, all[i].feed)
  {
    var n := |all| - 1;
    if i < n {
      assert all[..n][i] == all[i];
      MadeBy(all[..n], i);
    }
  }

  /** A write is in a feed's slots precisely if the feed made it. */
  lemma WritesAreOwn(all: seq<Write>, feeds: seq<Feed>, w: nat, i: nat)
    requires (forall f :: f in feeds ==> Fed(f)) && Interleaves(all, feeds) && Apart(feeds) && w < |feeds| && i < |all|
    ensures SlotOfOp(all[i].op) in SlotsOf(feeds[w]) <==> all[i].feed == w
  {
    hide SlotsOf, By, FeedOps, Apart, Fed;
    var v := all[i].feed;
    MadeBy(all, i);
    FeedStaysInside(feeds[v], |feeds[v].jobs|);
    if v != w {
      FeedsAreApart(feeds, v, w);
    }
  }

  lemma {:induction false} OwnWrites(all: seq<Write>, slots: set<Slot>, w: nat)
    requires forall i :: 0 <= i < |all| ==> (SlotOfOp(all[i].op) in slots <==> all[i].feed == w)
    ensures OpsIn(Ops(all), slots) == By(all, w)
  {
    if all != [] {
      var n := |all| - 1;
      OwnWrites(all[..n], slots, w);
      var before := Ops(all[..n]);
      assert (before + [all[n].op])[..|before|] == before;
      assert OpsIn(before + [all[n].op], slots) == OpsIn(before, slots) + if SlotOfOp(all[n].op) in slots then [all[n].op] else [];
    }
  }

  lemma {:induction false} RunConcat(g: set<Series>, a: seq<Op>, b: seq<Op>)
    ensures RunOps(g, a + b) == RunOps(RunOps(g, a), b)
    decreases |b|
  {
    if b == [] {
      assert a + b == a;
    } else {
      var n := |b| - 1;
      RunConcat(g, a, b[..n]);
      assert (a + b)[..|a + b| - 1] == a + b[..n];
      hide ApplyOp;
    }
  }

  lemma {:induction false} FeedRuns(g: set<Series>, f: Feed, n: nat)
    requires Fed(f) && n <= |f.jobs|
    ensures RunOps(g, FeedOps(f, n)) == FeedAlone(g, f, n)
  {
    hide Rebuilt, AnsweredBy, FoundBy, PassOps;
    if n > 0 {
      assert f.jobs[n - 1] in f.jobs;
      FeedRuns(g, f, n - 1);
      RunConcat(g, FeedOps(f, n - 1), JobOps(f, n - 1));
      RunPass(FeedAlone(g, f, n - 1), f.owner, AnsweredBy(f.jobs[n - 1]), FoundBy(f.jobs[n - 1], f.resolve));
      hide RunOps;
    }
  }

  /** However the writes of any number of rules and both feeds are interleaved, each feed's slots
      end as if it had been the only one. */
  lemma EveryFeedRunsAlone(g: set<Series>, all: seq<Write>, feeds: seq<Feed>, w: nat)
    requires (forall f :: f in feeds ==> Fed(f)) && Interleaves(all, feeds) && Apart(feeds) && w < |feeds|
    ensures Slice(RunOps(g, Ops(all)), SlotsOf(feeds[w])) == Slice(FeedAlone(g, feeds[w], |feeds[w].jobs|), SlotsOf(feeds[w]))
  {
    hide SlotsOf, Slice, Apart, Fed;
    var f := feeds[w];
    forall i | 0 <= i < |all| ensures SlotOfOp(all[i].op) in SlotsOf(f) <==> all[i].feed == w {
      WritesAreOwn(all, feeds, w, i);
    }
    OwnWrites(all, SlotsOf(f), w);
    RunSliced(g, Ops(all), SlotsOf(f));
    FeedRuns(g, f, |f.jobs|);
  }

  /** Whether a pass of this rule spoke to what a series is about. */
  ghost predicate SpokeTo(f: Feed, j: Job, s: Series)
    requires Proper(j)
  {
    s.rule == f.owner.rule && s.file == f.owner.file &&
    match j
    case Evaluation(_, p, _) => Earned(p, s.check, s.source)
    case Recheck(sources, outcomes) => s.check == "rule/attribute-key" && s.source in AskedOf(sources, outcomes, |sources|)
  }

  lemma JobExactly(before: set<Series>, f: Feed, j: Job, s: Series)
    requires Proper(j)
    ensures s in Rebuilt(before, f.owner, AnsweredBy(j), FoundBy(j, f.resolve))
       <==> if SpokeTo(f, j, s) then s.team == f.owner.team && Finding(s.check, s.severity, s.source) in FoundBy(j, f.resolve)
            else s in before
  {
    hide Rebuilt, Owns, Earned, AskedOf, FindingsOf, RecheckFindings, AnswersOf;
    match j
    case Evaluation(prev, p, schema) =>
      GaugeExactly(before, f.owner, prev, p, f.resolve, schema, s);
    case Recheck(sources, outcomes) =>
      RecheckExactly(before, f.owner, sources, outcomes, f.resolve, s);
  }

  /** Whatever else was written meanwhile, what a rule's last pass spoke to stands in the gauge
      precisely if that pass found it; the rest of its slots are as its own earlier passes left them. */
  lemma LastPassDecides(g: set<Series>, all: seq<Write>, feeds: seq<Feed>, w: nat, s: Series)
    requires (forall f :: f in feeds ==> Fed(f)) && Interleaves(all, feeds) && Apart(feeds) && w < |feeds|
    requires feeds[w].jobs != [] && SlotOf(s) in SlotsOf(feeds[w])
    ensures var f := feeds[w];
            var n := |f.jobs| - 1;
            Proper(f.jobs[n]) &&
            (s in RunOps(g, Ops(all)) <==>
               if SpokeTo(f, f.jobs[n], s)
               then s.team == f.owner.team && Finding(s.check, s.severity, s.source) in FoundBy(f.jobs[n], f.resolve)
               else s in FeedAlone(g, f, n))
  {
    var f := feeds[w];
    var n := |f.jobs| - 1;
    hide SlotsOf, Interleaves, Apart, RunOps, SpokeTo, FoundBy, AnsweredBy, Rebuilt, Proper;
    EveryFeedRunsAlone(g, all, feeds, w);
    assert s in RunOps(g, Ops(all)) <==> s in Slice(RunOps(g, Ops(all)), SlotsOf(f));
    assert s in FeedAlone(g, f, n + 1) <==> s in Slice(FeedAlone(g, f, n + 1), SlotsOf(f));
    assert f.jobs[n] in f.jobs;
    JobExactly(FeedAlone(g, f, n), f, f.jobs[n], s);
  }
}
