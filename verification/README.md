# The alert pipeline of the ClickHouse ruler, verified

This project models the deterministic part of a rule evaluator that polls ClickHouse and pages
through Alertmanager, and proves what its comments, tests and documentation promise about whole
runs. Time is a number of nanoseconds; everything a server, a clock or a network decides is a
parameter, so each theorem holds for every answer they could give.

The files follow the path of an alert:

- **Alert state.** `AlertModel` is the specification: a plain map from label set to instance, in
  which every label set advances on its own. `AlertState` is the heap code with its hash buckets,
  proved to compute exactly that map for every hash function. `Lifecycle` follows whole runs of
  evaluations, failed evaluations and reloads; `Identity` says which label sets a definition can
  produce; `Fingerprints` is the byte stream the hash is taken of; `Snapshots` is the order the
  alerts are listed in.
- **Delivery.** `Cadence` (resend throttle), `Ticks` (group clock), `SendQueue` (bounded queue),
  `Delivery` (the queue, its worker and a drain over every interleaving). `Pipeline` follows one
  label set through clock, state machine and throttle and bounds how many failures an alert
  survives; `Composition` proves that whole runs of all three, with the calls of other rules in
  between and with sweeping, deliver exactly what those flows post, and carries the bounds over.
- **Concurrency and reload.** `Concurrency` (two-level semaphore), `Reload` (open, stop, swap,
  close, over every interleaving with evaluations), `Runner` (the code of one reload), `Gathering`
  (what both of these gather before anything is swapped) and `Carry` (handing state to the next
  configuration, over any run of reloads).
- **Replay.** `Backfill` (64-bit step arithmetic) and `Replay` (collapsing windows through the
  state machine).
- **Parsers.** `Outline`, `OutlineText` and `Ast` (indented trees), `Literals` (two-layer string
  literals and engine clauses).
- **Policy.** `Policy`, `Ceilings` and `Scopes`.
- **Rule findings.** `Shape`, `Drift`, `Gauge` and `Feeds`.

`Machine`, `Orders` and `Options` hold machine integers, byte order with sorting, and the optional
value.

## Where the code and its comments differ

The model follows the code. Each of these is a theorem, not a remark.

- `internal/notify/cadence.go:22-25` says the default tolerance of four lets three consecutive
  failures pass. That is exact under `Pipeline.SurvivesOneMore`, a comparison of the two configured
  intervals; `Pipeline.ThreeFailuresCanExpire` is the counterexample (interval 100, ticks 99 apart),
  and `Pipeline.NoFalseExpiry` gives the bound that always holds, tolerance minus two.
- `internal/notify/cadence.go:205-212` says only entries nothing can ask for again are swept. That
  is so as long as no call is behind an earlier delivered one by more than its validity and a
  nanosecond; `Cadences.ClockBoundExactly` proves this bound exact for every interval and tolerance.
- `internal/alert/state.go:441-448` promises one sequence for one state, ordered by the rendered label
  set where two fingerprints agree. `Snapshots.OneSequenceExactly` says when that is
  so; two label sets can share a rendering as well (`Snapshots.RenderingCollides`).
- `internal/query/backfill.go:281-283` counts an alert per page. Two label sets of one fingerprint
  that became active together count once: `Replays.AlertsExactly` says when the count is exact.
- `internal/alert/state.go:172-178` says an instance kept across a changed definition would carry a
  fingerprint no future evaluation produces. `Identity.StrandsEverythingExactly` says when that is
  so, and `Identity.RefusalCanKeepAnAlert` is a refused definition that produces the same alert.
- `internal/scheduler/concurrency.go:57-63` says a source's cap keeps one slow source from starving
  the rest. A query waiting for its source already holds a ruler-wide slot;
  `Concurrency.ConfinedExactly` says exactly when the cap confines a source.
- `internal/query/backfill.go:424-425` says by how far the step is raised: until the rows fit. It can be
  raised further than that: `Backfill.SmallestExactly` says when the multiple chosen is the
  smallest that fits.
- `internal/policy/merge.go:13-16` says nothing can lower a severity. That holds between scopes
  (`Policies.OnlyStricter`); against the shipped default, `Policies.LowersExactly` names the one
  case in which a scope does lower it.

## Model

| member | source | states |
|---|---|---|
| AlertModel.RowsAt | internal/alert/state.go:291-309 | every returned sample is in the row map under its own final label set, with its own value |
| AlertModel.RowsOnly | internal/alert/state.go:291-309 | nothing is in the row map that no sample returned |
| AlertModel.RowsCount | internal/alert/state.go:291-309 | distinct samples are as many rows as there are samples |
| AlertModel.ExpiredCompose | internal/alert/state.go:354-393 | expiring buckets one at a time, in any order, is expiring them together |
| AlertModel.ExpiredIsNext | internal/alert/state.go:223-256 | taking over the rows and then expiring every bucket is one independent step of every label set |
| AlertModel.BaseDecidesLabels | internal/alert/state.go:151-162 | name by name, where an alert's label comes from: the two owned names, the source, the column of that name but never the team, the rule, the group, and nothing else |
| AlertModel.NextSays | internal/alert/state.go:231-253 | a returned row's alert has the row's value and the annotations its templates give for it as it now stands; one not returned keeps both |
| AlertModel.RowsAreTracked | internal/alert/state.go:228-231 | every returned row has its alert |
| AlertStates.Instance.Write | internal/alert/state.go:235-249 | a returned row sets the value and last-seen time, fires the instance once `for` has elapsed, and renders |
| AlertStates.Overlay | internal/alert/state.go:422-439 | one label map laid over another, without the skipped names |
| AlertStates.ComposeLabels | internal/alert/state.go:422-439 | precedence of label sources: definition, columns without team, source, the two owned names |
| AlertStates.State.constructor | internal/alert/state.go:134-149 | a new state tracks nothing and labels every sample by the precedence of its rule, group and source |
| AlertStates.State.Adopt | internal/alert/state.go:186-207 | accepts exactly the definitions that are the same alert, touches no instance either way, and then labels by the new definition's precedence |
| AlertStates.State.ResolveLabels | internal/alert/state.go:291-309 | fails exactly when two samples became one alert, and names that alert's labels |
| AlertStates.State.Track | internal/alert/state.go:318-335 | finds the live instance of a label set, replaces a resolved one, or files a new one |
| AlertStates.State.ObserveRow | internal/alert/state.go:231-253 | one row advances its own entry of the map and nothing else |
| AlertStates.State.TakeRows | internal/alert/state.go:228-253 | all rows are taken over, the returned instances are exactly those present, and failures are collected |
| AlertStates.State.ExpireOne | internal/alert/state.go:354-393 | what becomes of one instance the evaluation did or did not return |
| AlertStates.State.FilterBucket | internal/alert/state.go:354-393 | the in-place filter keeps exactly the instances that survive |
| AlertStates.State.Expire | internal/alert/state.go:354-393 | every label set not returned lapses by its own timers, and the survivors are listed in order |
| AlertStates.State.Snapshot | internal/alert/state.go:449-468 | lists every tracked alert exactly once, by fingerprint and then by rendered label set |
| AlertStates.State.Eval | internal/alert/state.go:223-256 | all or nothing: fails exactly on colliding rows and then changes nothing; otherwise the state is the plain map's next, whatever the hash, and every alert listed says what its row, or else what it last, said |
| Snapshots.OneSequenceExactly | internal/alert/state.go:441-468 | a state is listed in one sequence only if and only if no two tracked label sets share both fingerprint and rendering |
| Snapshots.ShowsInOrder | internal/alert/state.go:461-466 | fingerprints ascend, and where two agree the renderings stand alphabetically |
| Snapshots.LabelKey | internal/alert/fingerprint.go:27-46 | renders the pairs of a label set in the order of their names |
| Snapshots.OneRendering | internal/alert/fingerprint.go:27-46 | a label set has one rendering, whatever order its map is iterated in |
| Snapshots.RenderingCollides | internal/alert/fingerprint.go:27-46 | for every two names and values, two different label sets are rendered alike |
| Lifecycle.RunFollows | internal/alert/state.go:223-256 | over any run of evaluations, failures and reloads each label set follows its own rows only |
| Lifecycle.FollowTimings | internal/alert/state.go:318-393 | phases and times do not depend on labels, values or annotations |
| Lifecycle.EveryInstanceHasAStory | internal/alert/state.go:223-256 | a tracked instance was returned by every evaluation from its start, fired at the first one `for` had elapsed at, resolved at the first one `keep_firing_for` had run out at |
| Lifecycle.AStoryDecides | internal/alert/state.go:223-256 | conversely such a history determines the instance, its phase and all its times |
| Lifecycle.RunTellsTheStory | internal/alert/state.go:186-256 | what a whole run tracks for a label set is exactly what its history tells, across failures and adoptions |
| Lifecycle.FiringExactly | internal/alert/state.go:236-242 | an instance is firing at the end of a run if and only if its history fires it |
| Lifecycle.PhasesOnlyAdvance | internal/alert/state.go:20-29 | pending, firing, resolved: an instance only moves forward and keeps the times it has |
| Lifecycle.FiringIsRecent | internal/alert/state.go:354-393 | after an evaluation a firing instance was just returned or is inside `keep_firing_for` |
| Lifecycle.AdoptKeepsIdentity | internal/alert/state.go:186-207 | an accepted definition gives every sample the same labels and refuses the same samples |
| Lifecycle.UnchangedReloadsAreInvisible | internal/alert/state.go:186-207 | reloading an unchanged definition at any points of a run changes nothing |
| Identity.ProducibleExactly | internal/alert/state.go:422-439 | the exact image of the label rules: which label sets a definition can give an alert |
| Identity.StrandsEverythingExactly | internal/alert/state.go:164-207 | a changed definition strands every instance if and only if the two contradict on a fixed label |
| Identity.AdoptableExactly | internal/alert/state.go:186-207 | an accepted definition labels every sample alike, and where no label hides another every definition that does is accepted |
| Identity.RefusalCanKeepAnAlert | internal/alert/state.go:172-178 | a refused definition that can produce an alert of the old one |
| Orders.SortedUnique | internal/alert/fingerprint.go:48-62 | a sorted order is a function of what is sorted: map iteration order cannot show |
| Orders.LessExactly | internal/alert/fingerprint.go:60 | one key goes before another at the first place they differ, or as a proper beginning of it |
| Orders.LessIsAlphabetical | internal/alert/fingerprint.go:60 | for names that is alphabetical order, character by character |
| Orders.SortedList | internal/alert/fingerprint.go:55-62 | the keys of a map, each once and in ascending order |
| Orders.Sort | internal/alert/state.go:461-466 | a rearrangement in which nothing stands behind a greater key |
| Orders.Compact | internal/policy/merge.go:103-104 | of a sorted list, each name once |
| Fingerprints.LittleEndianInjective | internal/alert/fingerprint.go:55-77 | the eight length bytes determine the length |
| Fingerprints.LittleEndianAt | internal/alert/fingerprint.go:67 | the i-th byte of a length is its i-th digit to the base 256 |
| Fingerprints.StreamBegins | internal/alert/fingerprint.go:64-77 | a stream begins with the first key behind its length, then the value behind its own |
| Fingerprints.FieldPrefixFree | internal/alert/fingerprint.go:55-77 | a length-prefixed field ends where its length says, whatever follows |
| Fingerprints.StreamInjective | internal/alert/fingerprint.go:55-77 | equal byte streams come from the same keys and the same values |
| Fingerprints.Encode | internal/alert/fingerprint.go:55-77 | writes each key and value in sorted order, length first |
| Fingerprints.EncodesExactly | internal/alert/fingerprint.go:48-77 | two label maps are hashed from the same bytes if and only if they are equal |
| Cadences.Cadence.constructor | internal/notify/cadence.go:74-81 | a new throttle has posted nothing |
| Cadences.Cadence.Send | internal/notify/cadence.go:105-115 | posts exactly what is due, stamped, and records it only if the sender accepted |
| Cadences.Cadence.DueAt | internal/notify/cadence.go:119-149 | selects in order, skips pending alerts, stamps expiries on firing ones only |
| Cadences.Cadence.Record | internal/notify/cadence.go:192-203 | records what was posted and sweeps |
| Cadences.Cadence.Prune | internal/notify/cadence.go:216-230 | sweeps at most once an interval, and only entries older than validity plus interval |
| Cadences.SelectionExactly | internal/notify/cadence.go:119-171 | an alert is posted if and only if it entered its phase after the last post or a whole interval has passed |
| Cadences.SelectedInOrder | internal/notify/cadence.go:119-171 | what is posted is every alert worth posting once, in the order they came, as it was but for the expiry of a firing one |
| Cadences.RecordedAt | internal/notify/cadence.go:192-203 | what is posted is recorded under its own fingerprint, and nothing else changes |
| Cadences.SweepBoundsMap | internal/notify/cadence.go:205-230 | sweeps are an interval apart and leave no entry older than a validity and an interval, and take no other |
| Cadences.PruningIsInvisible | internal/notify/cadence.go:205-230 | a throttle that sweeps and one that never does post the same on every call of any run in which no call is more than a validity and one nanosecond behind an earlier delivered one |
| Cadences.PruningShowsFarBehind | internal/notify/cadence.go:205-230 | for every pair of intervals, every tolerance and every gap past that bound, a run whose last call is that far behind and in which the two throttles post differently |
| Cadences.ClockBoundExactly | internal/notify/cadence.go:205-230 | sweeping is invisible on all runs that keep to a bound if and only if the bound allows no more than one nanosecond past the validity |
| Cadences.PostsAt | internal/notify/cadence.go:105-115 | each call of a run posts what is due by the throttle as the calls before it left it |
| Ticks.CatchUp | internal/scheduler/group.go:47-53 | the catch-up loop terminates, ends at or after now, and counts each boundary it skips |
| Ticks.CountsCeiling | internal/scheduler/group.go:47-56 | the boundaries missed are the ceiling of the overrun less one, and never negative |
| Ticks.Group.Iterate | internal/scheduler/group.go:30-57 | one iteration runs its boundary and counts what the evaluation overran |
| Ticks.AccountsStep | internal/scheduler/group.go:30-57 | every boundary so far was run or missed and none was both; ticks are on the grid and strictly increasing |
| Ticks.NothingUncounted | internal/scheduler/group.go:30-57 | over any clock readings, iterations plus missed is the boundaries gone by |
| SendQueues.DropsTheLeast | internal/scheduler/sendqueue.go:126-173 | the fewest oldest batches are dropped that make room, unless the batch alone is over the bound |
| SendQueues.TotalExactly | internal/scheduler/sendqueue.go:126-173 | what is bounded and counted is alerts, one for every place in every batch |
| SendQueues.SendQueue.constructor | internal/scheduler/sendqueue.go:88-115 | an empty queue, with the default capacity in place of one that is not positive |
| SendQueues.SendQueue.Enqueue | internal/scheduler/sendqueue.go:126-173 | drops whole batches oldest first, counts what it drops, refuses when closed; at most one oversized batch exceeds the bound |
| SendQueues.SendQueue.MakeRoom | internal/scheduler/sendqueue.go:140-150 | the drop loop stops as soon as the batch fits or nothing is left |
| SendQueues.SendQueue.Next | internal/scheduler/sendqueue.go:263-275 | takes the oldest item and keeps the count exact |
| SendQueues.SendQueue.Abandon | internal/scheduler/sendqueue.go:280-294 | what is left is counted as dropped |
| SendQueues.SendQueue.DrainLoop | internal/scheduler/sendqueue.go:249-261 | delivers in order until empty or cancelled, and drops the rest |
| Delivery.ApplyKeepsInv | internal/scheduler/sendqueue.go:126-294 | every step of producers, worker and drain keeps every invariant |
| Delivery.EveryInterleavingKeepsInv | internal/scheduler/sendqueue.go:126-294 | alerts enqueued are handed over, dropped or queued, in order and in whole batches, with no wakeup lost, over every interleaving |
| Delivery.EveryReachableState | internal/scheduler/sendqueue.go:88-294 | the same from a new queue, and after a drain the queue is closed and empty |
| Delivery.StaysEmptyAfterDrain | internal/scheduler/sendqueue.go:214-245 | after a drain returned nothing is ever accepted again |
| Delivery.ClosedMakesProgress | internal/scheduler/sendqueue.go:198-294 | once closed every step but a refused enqueue uses up some of what is left |
| Delivery.DrainIsNeverStuck | internal/scheduler/sendqueue.go:218-245 | while a drain is under way some step other than an enqueue can be taken |
| Delivery.DrainReturns | internal/scheduler/sendqueue.go:218-245 | from any reachable closed state the drain can end, with the queue empty |
| Delivery.NoEndlessDrain | internal/scheduler/sendqueue.go:218-245 | no schedule puts the end of a drain off for more than a fixed number of steps |
| Pipeline.ChosenExactly | internal/notify/cadence.go:119-149 | what a call posts under a fingerprint is the alert its batch holds, stamped, if that is due, and nothing else |
| Pipeline.ThrottleProjects | internal/notify/cadence.go:105-203 | after any call, whether or not its batch holds the alert, the throttle remembers of its fingerprint the time of the call if it posted it and was accepted, and else what it did before |
| Pipeline.StaysFiringExactly | internal/alert/state.go:354-393 | a firing alert is firing at the end of a flow if and only if no evaluation finds it absent for `keep_firing_for` |
| Pipeline.DueExactly | internal/notify/cadence.go:162-171 | how many boundaries after a post an alert is due again, exactly |
| Pipeline.NextPostExactly | internal/notify/cadence.go:105-203 | the next post is at the first due boundary that is not lost |
| Pipeline.InTime | internal/notify/cadence.go:176-182 | the expiry stamp covers tolerance minus two lost due boundaries on every pair of intervals |
| Pipeline.NoFalseExpiry | internal/notify/cadence.go:105-203 | an alert that its rows keep firing and that loses at most tolerance minus two due boundaries, anywhere on the way, is posted again before it expires |
| Pipeline.OneMoreFailureExactly | internal/notify/cadence.go:22-25 | with tolerance minus one lost it is posted in time if and only if a comparison of the two intervals holds |
| Pipeline.DividingSurvives | internal/notify/cadence.go:22-25 | it holds when the group interval divides the resend interval |
| Pipeline.ThreeFailuresExpire | internal/notify/cadence.go:22-25 | there, every run that loses the three boundaries an alert is first due again at posts it after it has expired |
| Pipeline.ThreeFailuresCanExpire | internal/notify/cadence.go:22-25 | for the default on a group ticking every 99 seconds, rows and posts in which three due boundaries are lost and the next post comes after the expiry |
| Pipeline.RetentionIsExpiry | internal/scheduler/sender.go:73-89 | a resolved instance is kept exactly as long as a firing alert stays valid |
| Pipeline.ResolveIsOffered | internal/scheduler/sender.go:67-89 | a resolve is offered at every evaluated boundary of its retention until one post is recorded |
| Pipeline.ResolveIsDelivered | internal/scheduler/sender.go:67-89 | a resolve survives up to tolerance failures: one accepted boundary among tolerance plus one records it |
| Pipeline.SentIsPast | internal/notify/cadence.go:192-203 | over any run a recorded post lies before the boundary being evaluated |
| Pipeline.EveryEdgeIsDue | internal/notify/cadence.go:151-171 | over any run an alert that has just fired or just resolved is due at that boundary, whatever was posted before |
| Pipeline.FirstPageIsOffered | internal/notify/cadence.go:151-171 | an alert that fired is offered at every evaluated boundary its rows keep it firing at, until a post of it is accepted |
| Pipeline.PostedAgain | internal/notify/cadence.go:105-203 | the same bound on lost boundaries after any post anywhere in a flow |
| Composition.InstFollows | internal/alert/state.go:223-256 | over a run the entry of a label set in the whole state is the instance of its flow |
| Composition.SentFollows | internal/notify/cadence.go:105-203 | after every call, own or of another rule, what the throttle remembers of the fingerprint is what the flow does at the last boundary reached |
| Composition.RunRefinesFlow | internal/notify/cadence.go:105-203 | and so after a whole run |
| Composition.PostsFollow | internal/notify/cadence.go:105-149 | a call posts the alert if and only if it is the call of a boundary the flow offers it at, as that boundary left it and stamped with that boundary's expiry; sweeping or not |
| Composition.DeliversExactly | internal/notify/cadence.go:105-115 | the flow posts at a boundary if and only if some call of that boundary delivers the alert |
| Composition.NoFalseExpiryInRuns | internal/notify/cadence.go:105-203 | in any run of clock, state machine, queue and throttle, an alert that is delivered and that its rows keep firing is delivered again before the expiry it was stamped with, if at most tolerance minus two due boundaries are lost |
| Composition.ResolveIsDeliveredInRuns | internal/scheduler/sender.go:67-89 | in any such run one accepted batch among tolerance plus one delivers a resolve |
| Concurrency.NewLimits | internal/scheduler/concurrency.go:79-96 | no cap for a non-positive limit, and the first positive cap of each source |
| Concurrency.FirstCapExactly | internal/scheduler/concurrency.go:79-96 | a source's cap is the first positive one listed under its name |
| Concurrency.StepKeepsInv | internal/scheduler/concurrency.go:33-165 | every acquire, wait, cancellation and release keeps holders within both caps and the gauge exact |
| Concurrency.EveryInterleavingKeepsInv | internal/scheduler/concurrency.go:33-165 | the same over every interleaving of any number of queries |
| Concurrency.EverySlotReturns | internal/scheduler/concurrency.go:125-153 | when nobody is in flight every slot is back and the gauge reads zero |
| Concurrency.NeverDeadlocked | internal/scheduler/concurrency.go:125-153 | while a query is in flight some query can move without being cancelled |
| Concurrency.EveryStepIsProgress | internal/scheduler/concurrency.go:125-153 | every step brings some query nearer to having left |
| Concurrency.EveryoneLeaves | internal/scheduler/concurrency.go:125-153 | from any reachable state everybody can leave, in a bounded number of steps |
| Concurrency.OneSourceHogs | internal/scheduler/concurrency.go:132-145 | a run in which one source takes every ruler-wide slot its queries can |
| Concurrency.ConfinedExactly | internal/scheduler/concurrency.go:57-63 | a source's cap confines what it holds of the ruler-wide cap if and only if it could not have held more |
| Reload.LeftoverExactly | cmd/ruler/reload.go:279-283 | closing what differs under its name closes what the next configuration does not hold at all |
| Reload.ApplyKeepsInv | cmd/ruler/reload.go:234-304 | every step of a reload and of evaluations beside it keeps the invariant |
| Reload.InvIsSafe | cmd/ruler/reload.go:215-224 | no evaluation in flight holds a closed connection |
| Reload.EveryRunIsSafe | cmd/ruler/reload.go:215-304 | over any run: no use after close, no connection closed twice, and between reloads exactly the running ones are open |
| Reload.RefusedReloadTouchesNothing | cmd/ruler/reload.go:315-356 | until a reload swaps, and so whenever it is refused, the running configuration and its connections are untouched |
| Reload.EveryReloadGathers | cmd/ruler/reload.go:245-273 | however evaluations come between its steps, a reload that has opened everything holds what the loop over the same sources gathers |
| Gathering.GatheredIsOnePerName | cmd/ruler/reload.go:245-273 | what was gathered is one connection per source, the kept ones under their own names |
| Runners.CloseExcept | cmd/ruler/reload.go:279-283 | closes every connection the other map does not hold under the same name, once |
| Runners.Runner.Gather | cmd/ruler/reload.go:245-273 | keeps a connection exactly for an unchanged definition and opens the rest; fails exactly at the first source that has to be opened and cannot be, and closes what it opened |
| Runners.Runner.Connect | cmd/ruler/reload.go:234-304 | refused at that source: nothing moved and nothing new is open; loaded: an unchanged source has the connection it had and any other a new one, and an old connection is closed exactly if nothing is served by it |
| Carry.AssignKeys | internal/scheduler/scheduler.go:252-300 | an evaluator's key is its group, its name and how many matched rules before it share the name |
| Carry.OccurrenceExactly | internal/scheduler/scheduler.go:72-83 | a key names the group, the alert and how many matched rules of that name stand before |
| Carry.KeysAreDistinct | internal/scheduler/scheduler.go:72-83 | no two evaluators share a key, even when two rules of a group share a name |
| Carry.Equip | internal/scheduler/ruleeval.go:499-509 | one evaluator takes over exactly the states its predecessor held for the same sources and that are the same alert, and a new one for every other source |
| Carry.Build | internal/scheduler/scheduler.go:252-300 | every matched rule gets one evaluator, equipped so, and no new state is given to two |
| Carry.CarriesExactly | internal/scheduler/ruleeval.go:499-509 | after a reload each matched rule holds, for each of its sources, the state held under its key for that source if it is the same alert, and otherwise one there has never been |
| Carry.OnlyRulesEvaluate | internal/scheduler/scheduler.go:274-300 | and nothing else is evaluated |
| Carry.NeverShared | internal/scheduler/scheduler.go:72-83 | over any run of reloads no two evaluators ever hold one state |
| Carry.OneOwnerForLife | internal/scheduler/ruleeval.go:485-509 | a state belongs to one evaluator and one source for as long as it is held, and one that was dropped never comes back |
| Carry.UniqueNameIsFirst | internal/scheduler/scheduler.go:72-83 | a rule whose name is unique in its group keeps its key wherever it moves in the file |
| Backfill.WindowsExactly | internal/query/backfill.go:399-408 | a range holds so many windows if so many steps fit into it, and always one |
| Backfill.AllowedExactly | internal/query/backfill.go:449-455 | so many windows are afforded if their rows are within the ceiling, and always one |
| Backfill.SaturatingMulExactly | internal/query/backfill.go:482-490 | the wrapped product is the true one, or the largest number where that does not fit |
| Backfill.MultipleIsCeiling | internal/query/backfill.go:457 | no sum overflows, and the multiple is the least that the allowed windows cover the range with |
| Backfill.WindowsOfMultiple | internal/query/backfill.go:399-408 | merging k steps leaves a k-th of the windows, rounded down, or one |
| Backfill.StepExactly | internal/query/backfill.go:434-467 | for all inputs: sampled exactly when the ceiling is exceeded; then the step is a true multiple, or the whole range past the 32-bit guard; nothing wraps |
| Backfill.ReplayFitsCeiling | internal/query/backfill.go:434-467 | with a ceiling, the rows of the whole replay are within it or are one window's |
| Backfill.FitsExactly | internal/query/backfill.go:434-467 | which multiples of the step fit the ceiling, exactly |
| Backfill.SmallestExactly | internal/query/backfill.go:434-467 | the multiple chosen is the smallest that fits if and only if two quotients agree |
| Backfill.NotTheSmallest | internal/query/backfill.go:434-467 | five windows with two allowed run as one, though merging two steps fits |
| Backfill.ReplayInstants | internal/query/backfill.go:416-422 | the instants are now and equal steps behind it, computed without wrapping |
| Backfill.InstantsCoverTheRange | internal/query/backfill.go:410-422 | strictly increasing, the last one now, none earlier than the range allows |
| Backfill.PlanReplay | internal/query/backfill.go:177-221 | refused exactly for a non-positive range or step; a sampled plan's step is the least multiple of which as many as are afforded cover the windows asked for, or the whole range past the 32-bit guard; the predicted rows are exact under a ceiling |
| Replays.StepFires | internal/alert/state.go:236-242 | an alert that fires was firing already, or fires now on a row this window returned |
| Replays.SpansSound | internal/query/backfill.go:314-326 | an alert was firing at a window if and only if the window lies between its recorded first and last firing |
| Replays.OneStoryPerTransition | internal/query/backfill.go:314-328 | the alerts that fired are as many as the times something started to fire |
| Replays.AlertsAtMostHits | internal/query/backfill.go:301-328 | there are never more alerts than returned rows |
| Replays.Collapse | internal/query/backfill.go:314-326 | one window's alerts extend the spans they belong to and start the others, in the order they fired; alerts of one key share a span from the first firing of any to the last |
| Replays.LongestStreak | internal/query/backfill.go:329-345 | the first of the longest spans decides the streak and whether it was still firing |
| Replays.RunWindow | internal/query/backfill.go:295-326 | one window through the state machine, unless its query failed or its rows collided |
| Replays.Replay | internal/query/backfill.go:273-349 | fails exactly if some window cannot be evaluated; otherwise reports one alert per fingerprint and time of becoming active, one hit per row and the longest span |
| Replays.AlertsExactly | internal/query/backfill.go:281-328 | the count is the number of times something started to fire if and only if no two alerts that fired share fingerprint and time of becoming active, and otherwise less |
| Replays.HitsExactly | internal/query/backfill.go:295-304 | one hit for every row of every window |
| Replays.OneReport | internal/query/backfill.go:331-349 | the same replay reports the same, whatever order a snapshot or a map is gone through in |
| Replays.StillFiringExactly | internal/query/backfill.go:329-345 | still firing if and only if the first-fired of the longest spans is of an alert firing after the last window |
| Replays.StreakExactly | internal/query/backfill.go:329-345 | the longest streak is a step for every window from one firing of a key to a later one, and no such stretch is longer |
| Replays.StreakWithinReplay | internal/query/backfill.go:329-345 | the longest streak is at most windows times step, and positive exactly if something fired |
| Outline.PreOrderGrows | internal/query/ast.go:94-112 | one more line is visited last from each of its ancestors and moves nothing else |
| Outline.WalkIsLineOrder | internal/query/ast.go:94-112 | a walk from the root visits every line once, in the order they were written |
| Outline.PrintParsed | internal/query/ast.go:29-77 | printing the parsed tree gives the lines back |
| Outline.PrintInjective | internal/query/ast.go:29-77 | no two trees print alike, even with more text after them |
| Outline.ParsePrinted | internal/query/ast.go:29-77 | every tree prints as lines that parse, and parses back to itself |
| OutlineText.SplitJoin | internal/query/ast.go:45 | splitting joined lines gives the lines back |
| OutlineText.ReadWritten | internal/query/ast.go:46-52 | a legible line reads back as its depth, kind and detail, whatever suffix it carried |
| OutlineText.ReadLineExactly | internal/query/ast.go:45-89 | any line, legible or not: skipped if blank, else as deep as the spaces it begins with, its name cut off where the first suffix opens and split at the first space |
| OutlineText.LinesOfWritten | internal/query/ast.go:45-52 | a text written line by line is read as those lines |
| Asts.ParseAST | internal/query/ast.go:38-77 | succeeds if and only if the non-blank lines are well nested and not none; then every node hangs below the last earlier line one level up; otherwise the first fault is reported |
| Asts.LinkedMirrors | internal/query/ast.go:16-27 | the linked nodes are the tree the lines determine |
| Asts.ReadsBack | internal/query/ast.go:29-89 | a tree of legible names, written out with any suffixes, is read back as itself |
| Asts.Walk | internal/query/ast.go:97-109 | from any node, what matches below it is appended in line order |
| Asts.Find | internal/query/ast.go:94-112 | every node of the tree once, in line order |
| Asts.TableFunctions | internal/query/ast.go:120-131 | the functions whose parent is a table expression, as often as they occur and no others, sorted |
| Asts.TableFunctionsExactly | internal/query/ast.go:120-131 | the names listed are those of exactly the function nodes right below a table expression |
| Literals.Unescape | internal/query/ast.go:319-345 | the loop removes exactly one layer of escaping |
| Literals.UnescapedExactly | internal/query/ast.go:319-345 | character by character what a layer of escaping stands for, a lone backslash and an unknown escape included |
| Literals.UnescapeEscape | internal/query/ast.go:315-345 | removing a layer of escaping undoes adding one, whatever follows and whichever control characters were left plain |
| Literals.LiteralString | internal/query/ast.go:295-303 | both layers come off, and only a quoted text is a string |
| Literals.LiteralExactly | internal/query/ast.go:295-303 | a literal is a string if and only if what is left after one layer stands in quotes |
| Literals.LiteralRoundTrip | internal/query/ast.go:288-303 | any string printed through both layers is read back as itself |
| Literals.PrintedInjective | internal/query/ast.go:288-303 | no two strings are printed alike |
| Literals.NumbersAreNotStrings | internal/query/ast.go:288-303 | a literal that does not begin as a quoted one is not read as a string |
| Literals.QuotedLiteral | internal/query/distributed.go:228-248 | ends at the first quote no backslash precedes, or reports that none does |
| Literals.ClosingExactly | internal/query/distributed.go:228-248 | the literal ends at the first quote with an even number of backslashes directly before it, and has no end if there is none |
| Literals.QuotedRoundTrip | internal/query/distributed.go:221-248 | a printed literal is read back as the string, and what follows is untouched |
| Literals.DistributedTarget | internal/query/distributed.go:198-219 | three quoted arguments after the engine's name, none of them empty, or nothing |
| Literals.TargetExactly | internal/query/distributed.go:198-219 | a clause names a target if and only if it opens as one and three quoted names follow, apart by commas and none empty |
| Literals.TargetRoundTrip | internal/query/distributed.go:183-219 | the three names of a printed clause are recovered whatever the spacing and whatever follows, and a missing one resolves nothing |
| Policies.Intersect | internal/policy/merge.go:91-105 | exactly the keys both lists hold, each once and sorted |
| Policies.Union | internal/policy/merge.go:109-127 | exactly the keys either list holds, each once and sorted; an empty second list changes nothing |
| Policies.Strictest | internal/policy/merge.go:71-87 | the higher severity with its own origin, an earlier scope keeping it on a tie |
| Policies.Merge | internal/policy/merge.go:33-64 | for every check: the highest severity any scope gives, with the origin of the first scope that gives it, and the keys by kind of list; nothing where no scope configures it |
| Policies.MergedExactly | internal/policy/merge.go:33-64 | scope by scope: a check is merged if some scope configures it, at the highest severity any does, and which keys are in it for each kind of list and shipped list |
| Policies.CombinedUnordered | internal/policy/merge.go:18-22 | what settings combine to depends only on which there are |
| Policies.MergeUnordered | internal/policy/merge.go:18-22 | the merge is commutative and idempotent, and absent scopes change nothing |
| Policies.MergeNests | internal/policy/merge.go:23-33 | merging some scopes first and the result with the others is merging them all |
| Policies.LowersExactly | internal/policy/merge.go:13-16 | a scope lowers a severity if and only if it is the first to configure the check and asks for less than the default |
| Policies.OnlyStricter | internal/policy/merge.go:13-22 | once a check is configured no scope lowers it, drops a key or a ceiling, or permits more |
| CeilingKeys.AtoiReadsBack | internal/policy/checks.go:39 | a number written out is read back, signed or not, exactly if it fits a machine integer |
| CeilingKeys.AtoiExactly | internal/policy/checks.go:39 | nothing is a number but digits behind a sign or none, and only if it fits |
| CeilingKeys.CeilingReadsBack | internal/policy/checks.go:34-42 | a ceiling written as name, colon and number is read for that name and no other, and a negative one is ignored |
| CeilingKeys.CeilingExactly | internal/policy/checks.go:34-42 | a key gives a ceiling if and only if it is the name, a colon and a number that is not negative |
| CeilingKeys.Limit | internal/policy/checks.go:31-48 | the lowest well-formed value a list gives a name, ignoring malformed and negative ones |
| CeilingKeys.LimitIs | internal/policy/checks.go:25-48 | some key gives that limit and none gives less; none is given exactly if no key gives one |
| CeilingKeys.LimitOfMerge | internal/policy/checks.go:25-48 | the limit of a merge is the lowest any scope gives on its own |
| CeilingKeys.FlagOfMerge | internal/policy/checks.go:50-57 | a flag is set in a merge if and only if some scope sets it |
| Scopes.ScopesFor | internal/ruleset/ruleset.go:227-243 | terminates, and merges the instance policy with every team policy on the way up, the origin of each setting included |
| Scopes.CollectedExactly | internal/ruleset/ruleset.go:221-243 | a team policy is collected if and only if its directory is at or above the file's and, inside the tree, not above its root |
| Scopes.NearestFirst | internal/ruleset/ruleset.go:227-243 | they are collected from the nearest directory up, each once |
| Scopes.PolicyFor | internal/ruleset/ruleset.go:354-360 | the located policy merged with every matched source's, the origin of each setting included |
| Scopes.EveryScopeBinds | internal/ruleset/ruleset.go:354-360 | merging in two steps decides nothing: every policy that reaches a rule binds it |
| Scopes.SomeScopeIsEnough | internal/policy/merge.go:8-16 | a rule's severity is never below what any one scope asks for |
| Shapes.TypesByName | internal/query/shape.go:58-64 | a result's types by name |
| Shapes.TypesExactly | internal/query/shape.go:58-64 | a name's type is that of the last column with the name |
| Shapes.Differences | internal/query/shape.go:35-54 | one entry per column that differs and no other, by column name; empty if and only if the types agree |
| Shapes.DescribesExactly | internal/query/shape.go:35-54 | which column was of which type and is of which, and which result lacks one |
| Shapes.OneDescription | internal/query/shape.go:66-83 | two results are described in one way, whatever order a map is iterated in |
| Shapes.OrderDecidesNothing | internal/query/shape.go:28-33 | two results agree if and only if they have the same columns, in any order |
| Drifts.DisagreeExactly | internal/scheduler/drift.go:128-155 | comparing each result with the first finds any two that differ |
| Drifts.Drift.InspectOne | internal/scheduler/drift.go:81-103 | compares a result with the last one and takes it as the next baseline |
| Drifts.Drift.Inspect | internal/scheduler/drift.go:78-117 | findings in source order, failures after them, one disagreement at the end; failed sources keep their baseline |
| Drifts.InspectedExactly | internal/scheduler/drift.go:78-155 | if and only if: a changed result, a result over its ceilings, a failed query, two results that differ, each where the check is on |
| Drifts.InspectedInOrder | internal/scheduler/drift.go:78-117 | what was evaluated comes first, then what failed, the comparison last |
| Drifts.InspectedOnce | internal/scheduler/drift.go:78-117 | nothing is found twice in a pass |
| Drifts.BaselineIsLastShape | internal/scheduler/drift.go:53-64 | over any passes the baseline is the last successful result, whatever failed in between |
| Drifts.DriftExactly | internal/scheduler/drift.go:78-117 | a changed result is reported if and only if the source answered, its last successful result had another shape, and the check is on |
| Gauges.BrokenNeedsRows | internal/scheduler/ruleeval.go:444-449 | an annotation that would not render had a row to render against |
| Gauges.AnsweredChecks | internal/scheduler/ruleeval.go:420-459 | the checks a pass answered, per source, and the comparison for the rule |
| Gauges.Evaluate | internal/scheduler/ruleeval.go:339-383 | the two halves of a pass in source order, its findings and its answers |
| Gauges.FindingsExactly | internal/scheduler/ruleeval.go:339-383 | what a pass finds, in terms of each source's outcome: over its ceilings, failed, an annotation that would not render, two that differ |
| Gauges.ChangeExactly | internal/scheduler/drift.go:78-94 | and a changed result exactly where the source answered and its last successful result had another shape |
| Gauges.CoveredExactly | internal/scheduler/ruleeval.go:406-459 | a check is answered for a source if and only if that source spoke to it |
| Gauges.EveryFindingIsAnswered | internal/scheduler/ruleeval.go:382-383 | every finding a pass raises lies in what that pass answered |
| Gauges.Gauge.Rebuild | internal/scheduler/scheduler.go:524-542 | clears what was answered and raises what was found, for one rule and file |
| Gauges.GaugeExactly | internal/scheduler/scheduler.go:509-542 | after a pass the rule's answered series are exactly its findings, under its name, team and file, and every other series is as it was |
| Feeds.RecheckOnce | internal/scheduler/recheck.go:128-170 | which sources answered, which refused, and what was found |
| Feeds.AskedExactly | internal/scheduler/recheck.go:128-170 | a source was asked if its check is off or it was sampled |
| Feeds.RecheckFindingExactly | internal/scheduler/recheck.go:128-170 | a finding is raised if and only if the source was sampled with something to report and the check is on |
| Feeds.RecheckExactly | internal/scheduler/recheck.go:67-114 | after a re-check its own check's series are exactly its findings, under the rule's name, team and file, and every other series is as it was |
| Feeds.SlotsAreDisjoint | internal/scheduler/scheduler.go:519-523 | the two feeds, and rules with different names or files, never write to one slot |
| Feeds.EvalPassStaysInside | internal/scheduler/scheduler.go:519-542 | an evaluation writes only to the slots of its own rule and checks |
| Feeds.RecheckStaysInside | internal/scheduler/recheck.go:92-104 | a re-check writes only to the slice it owns |
| Feeds.EveryFeedRunsAlone | internal/scheduler/scheduler.go:497-542 | however the writes of any number of rules and of both feeds interleave, each feed's slots end as if it had been the only one |
| Feeds.LastPassDecides | internal/scheduler/scheduler.go:497-542 | and so what a rule's last pass spoke to is in the gauge if and only if that pass found it |

## Left out

- ClickHouse itself: queries, EXPLAIN, DESCRIBE and privilege probes are arbitrary answers or failures.
- HTTP, TLS, credentials, readiness and the reload endpoint: a post is accepted or refused.
- YAML, lint tables, output formats, dashboards and flags: wide and shallow.
- Numbers FNV produces: the hash is any function of a label set; only its input encoding is modelled.
- Annotation templates: rendering is an arbitrary function of the alert that can fail per annotation.
- Time arithmetic outside `Backfill` is unbounded: saturation of `time.Sub` at 292 years is not modelled.
- Sample values are real numbers: NaN and infinities are not modelled.
- The order annotation failures are listed in.
- Prometheus series other than the rule problem gauge, and the load feed that shares `rule/columns` with it.
- Load findings, revision hashes and duplicate-alert detection: they would add only easy members.
- Shutdown deadlines: evaluations may outlive a timed-out shutdown by design, so connection safety is proved for reloads only.
- The wall clock of a drain: its timeout is a cancellation that can happen at any step.
- Measured cost: whether an evaluation read more than its ceilings is a given of each result.
- The label sets a replay hit most often, and its caveats and report text.
- Ticks.CatchUp: needs a positive interval, as the loop it models does; nothing in the code shown enforces one.
- SendQueues.SendQueue.DrainLoop: runs on its own; enqueues while it runs are in `Delivery`.
- Pipeline.ThrottleProjects: needs a batch to hold at most one alert of the fingerprint, because the throttle is keyed on the bare fingerprint; the alert state does not need that.
- Pipeline.NoFalseExpiry: a post is recorded at the time of the evaluation it came from, so the wait in the queue is not part of the bound.
- Composition.PostsFollow: needs that no other label set in the run has the fingerprint, for the same reason, and for the sweeping throttle the exact clock bound.
- Composition.NoFalseExpiryInRuns: needs the queue to hand batches over in order and none twice, as `Delivery` proves of it; a batch it drops counts as lost.
- Snapshots.LabelKey: the state is given the rendering as any function of a label set, so its results hold for this one.
- Carry.Build: needs distinct group ids. An id joins a path and a name with a colon, so two groups with colons in theirs could share one.
- Carry.Equip: whether a state is the same alert is any function of the two; `AlertStates.State.Adopt` is what decides it.
- Gauges.GaugeExactly: needs source names that are not empty, because the empty name stands for the rule as a whole.
- Feeds.EveryFeedRunsAlone: needs that no two feeds re-check, or evaluate, rules of one name in one file: those share their slots, as they share their series.
- Scopes.CollectedExactly: paths are cleaned lists of names, and symbolic links are resolved before.
