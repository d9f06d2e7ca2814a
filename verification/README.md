# Verified models of Magic Context

Magic Context keeps a coding session inside its context budget. Three parts of it make promises that
only hold over unbounded inputs or whole runs, and this project models and proves those:

- the **tier-decay curve**, which decides from age, importance and budget pressure how verbosely each
  compartment of history is rendered, and the renderer's tier selection around it;
- the **cache-pass classifier**, which decides on every pass whether the frozen prompt prefix may be
  rewritten;
- the **scanning and fusing loops** of the audit and benchmark scripts: tool-call adjacency, comment
  stripping, reciprocal-rank fusion, percentiles and compression-depth bands.

`dafny verify dfyconfig.toml` checks everything.

## How the parts are modelled

**Decay curve** (`Decay.dfy`, `DecayBudget.dfy`, `DecayBounds.dfy`, `DecayScale.dfy`,
`DecayOvershoot.dfy`, `DecayAnyLength.dfy`, `DecayRuns.dfy`, with `RealPower.dfy`). Arithmetic is over exact reals. The half-life factor 2^((imp-50)/25) is irrational
for most importances, so a comparison of z with a boundary is stated with both sides raised to the
25th power; `ComparisonIsExact` proves that this is the comparison the source makes, for whatever
positive real the factor is. A history is the chronological sequence of its importances; appending a
compartment ages all earlier ones by one index, and the pressure is recomputed from the whole history
on every pass.

What holds and what does not:

- The total rendered cost meets the budget to within one verbose compartment (322 tokens) for equal
  importances. From above this is proved when the budget is at least the natural cost or the history
  reaches past the archive boundary at pressure 1; 322 is the best possible constant.
- The source's comment says "Overshoots up to ~30% at very tight budgets (<8K)". For equal importances
  the overshoot is at most 30% from exactly 7783 / 1.3 tokens on, about 5,987, whatever the length of
  the history (`AnyLengthThreshold`), so the figure of 8K is on the safe side: from there on 30% holds.
  Below 5,987 tokens 30% is too low a figure: 46 compartments of importance 100 overshoot further just
  below it, and twenty of them overshoot 2,146 tokens by 71% (`ShortHistoryOvershoots`). These are short
  histories under a budget below their natural cost. For all others the threshold is exactly
  1216 / 1.3 tokens, about 935.4 (`ThirtyPercentThreshold`); below 322 / 1.3 tokens no non-empty
  history stays within 30%. For every single history of equal importances and every budget
  `OvershootIff` says exactly when 30% is exceeded, by comparing compartments with boundaries; for long
  histories of importance 100 `FullHistoryThirtyPercent` turns that into five intervals of budgets.
- The comment derives C(p) = C(1) / p for any history. With mixed importances that is false, also
  at budgets far above these: `MixedHistoryOvershoots` costs almost twice its budget of 41,370 tokens,
  on the pressure floor, and `MixedHistoryOvershootsUnderPressure` overshoots by 69% at pressure 3.
  What holds for every history is `AnyHistoryBounded`: the natural cost is never exceeded under a smaller budget,
  and off the floor the cost is below 322 + (16159.584 / natural cost) * budget; by the budget alone,
  30% holds from 124,553 tokens on, and from 12,558 on when the natural cost is higher still.
- The module comment claims append stability. With the pressure recomputed on every pass it does not
  hold in general: `AppendingCanRepromote` gives six compartments whose oldest goes from tier 2 back
  to tier 1 when a seventh is appended. `NeverRepromotedIff` and `StableIff` say exactly when it holds
  whatever the budget: the product of a compartment's age and the natural cost must not fall, unless
  the compartment is archived even at the lowest pressure. Histories whose importances never decrease,
  in particular equal ones, always meet this.

**Tier selection** (`DecayRender.dfy`). Legacy rows are exempt from the curve. The drift guard mutates
an array of tiers; rendering and the token estimator are an arbitrary function of the tiers.

**Cache passes** (`CachePass.dfy`, `CacheRuns.dfy`). The classifier is a pure function; one pass maps a
durable state to the next. The frozen set is kept by key: the payloads under `m0` and `m1`, the tail
reductions as a map by target, and any other units by key. The effects of a pass are those the
classifier's documentation states. One of them it leaves implicit and is an **assumption** of the
model: a hard fold rebuilds both baselines, keeps of the reductions those still in the tail, adopts
the render config and m1 revision, and clears the reconcile flag. The module does this at
crates/mc-module/src/transform.rs:4830-4946 and its tests assert the cleared flag at
crates/mc-module/src/transform.rs:23338 and :23378. Whether the boundary is present and whether there
is an independent bust opportunity are arbitrary inputs of every pass.

**Tool adjacency** (`ToolAdjacency.dfy`, `ToolRuns.dfy`, `ToolRegrouping.dfy`). A message is its role, its
call ids and its result ids. The Responses scan reports sorted lists of distinct ids; they are sets
here.

**Comment stripping** (`JsoncComments.dfy`). The loop is proved against a function, and the function
against a token grammar in which every input has a tokenization.

**Search fusion, latency, depths** (`SearchFusion.dfy`, `Latency.dfy`, `CavemanDepth.dfy`, with
`StableSort.dfy`). Scores and times are reals; JavaScript's sort is a stable sort by key.

## Model

| member | source | states |
|---|---|---|
| Decay.ComparisonIsExact | crates/mc-core/src/decay.rs:50-71 | with importances brought into 1..100, the comparison in integer powers is exactly z = a / (24 f / max(p, 0.1)) < boundary, for the positive real f with f^25 * 2^50 = 2^imp |
| Decay.TiersOfScaledAge | crates/mc-core/src/decay.rs:50-124 | the base tier, the archive test and the rendered tier in terms of that z, the boundaries and the overlap |
| Decay.FactorIsUnique | crates/mc-core/src/decay.rs:68-69 | the factor 2^((imp-50)/25) is determined by the equation used for it |
| Decay.JointMonotonicity | crates/mc-core/src/decay.rs:9-13 | rendered tiers are monotone in age, importance, pressure and anchor overlap, all four at once |
| Decay.CurveMonotone | crates/mc-core/src/decay.rs:77-90 | the base tier never decreases with age or pressure and never increases with importance |
| Decay.OverlapOnlyUnarchives | crates/mc-core/src/decay.rs:92-124 | without overlap the rendered tier is the curve's; overlap can only turn an archived compartment into tier 4 |
| Decay.NewestIsVerbose | crates/mc-core/src/decay.rs:154-162 | the newest compartment is tier 1 for every importance, pressure and overlap |
| Decay.FiniteDemotion | crates/mc-core/src/decay.rs:95-124 | an index is archived for every importance, pressure and overlap iff it is at least 4405 |
| Decay.AgeTradesForPressure | crates/mc-core/src/decay.rs:61-71 | multiplying the age by k is the same as multiplying the pressure by k |
| Decay.ImportanceTradesForPressure | crates/mc-core/src/decay.rs:22-25 | 25 points of importance cancel a doubling of the pressure exactly |
| Decay.ImportanceTradesForAge | crates/mc-core/src/decay.rs:22-25 | 25 points of importance double the half-life exactly |
| DecayBudget.ComputeBudgetPressure | crates/mc-core/src/decay.rs:130-145 | the accumulating loop computes the natural cost over the budget, floored, and 1 without a budget |
| DecayBudget.PressureSpendsBudget | crates/mc-core/src/decay.rs:126-145 | pressure times budget is the cost of the history at pressure 1, except that the pressure is 1 without a budget and never below 0.1 |
| DecayBudget.CostOfTier | crates/mc-core/src/decay.rs:41-42 | what each tier is charged, archived compartments nothing |
| DecayBudget.NaturalIsRenderedAtOne | crates/mc-core/src/decay.rs:134-143 | the natural cost of a history is what rendering it at pressure 1 costs, archived compartments free |
| DecayBudget.UniformCost | crates/mc-core/src/decay.rs:41-42 | for equal importances the cost is the sum by parts over the four boundaries, with weights 213, 74, 15 and 20 |
| DecayBudget.CountScalesAbove | crates/mc-core/src/decay.rs:126-129 | at pressure p the count below a boundary is less than one above the count at pressure 1 divided by p |
| DecayBudget.CountScalesBelow | crates/mc-core/src/decay.rs:126-129 | and less than 1/p below it |
| DecayBudget.SelfTuningAbove | crates/mc-core/src/decay.rs:126-145 | for equal importances the cost at the computed pressure is less than 322 tokens above the budget, if the budget is at least the natural cost or the history is long |
| DecayBudget.SelfTuningBelow | crates/mc-core/src/decay.rs:126-145 | and less than 322/p below it, if the pressure is off its floor and the history is long at that pressure |
| DecayBudget.SelfTuningOnLongHistories | crates/mc-core/src/decay.rs:126-145 | a long history of equal importance under a budget its natural cost exceeds is rendered to within 322 tokens of the budget on both sides |
| DecayBudget.NewestIsAlwaysPaid | crates/mc-core/src/decay.rs:154-162 | every non-empty history costs at least 322 tokens at any pressure, so the bound of 322 cannot be improved |
| DecayScale.CostAboveIff | crates/mc-core/src/decay.rs:41-90 | for equal importances the cost at a pressure exceeds x iff some compartment is within some boundary whose stair, given by the length alone, lies above x |
| DecayAnyLength.UniformWithinThirtyPercent | crates/mc-core/src/decay.rs:128-129 | for equal importances and any length the documented 30% holds from a budget of 7783 / 1.3 tokens on, hence from the documented 8K |
| DecayAnyLength.AnyLengthThreshold | crates/mc-core/src/decay.rs:128-129 | a budget is a threshold from which on all histories of equal importances stay within 30% iff it is at least 7783 / 1.3 tokens |
| DecayAnyLength.ShortOvershootJustBelow | crates/mc-core/src/decay.rs:128-129 | the failing input just below: 46 compartments of importance 100 cost 7783 tokens under every budget from 5,964 up to there |
| DecayAnyLength.OvershootIff | crates/mc-core/src/decay.rs:126-145 | any history of equal importances, under any budget, overshoots by more than 30% iff some compartment is within some boundary whose stair lies above 1.3 * budget |
| DecayOvershoot.OvershootWithinThirtyPercent | crates/mc-core/src/decay.rs:128-129 | long histories of equal importance, and any under a budget not below their natural cost, stay within 30% already from 1216 / 1.3 tokens on |
| DecayOvershoot.ThirtyPercentThreshold | crates/mc-core/src/decay.rs:128-129 | for those histories that threshold is exact |
| DecayOvershoot.OvershootJustBelow | crates/mc-core/src/decay.rs:128-129 | the failing input just below: 200 compartments of importance 75 cost 1216 tokens under every budget from 935.1 up to there |
| DecayOvershoot.OvershootBeyondThirtyPercent | crates/mc-core/src/decay.rs:128-129 | the documented 30% fails for every non-empty history when the budget is below 322 / 1.3 |
| DecayOvershoot.FullHistoryThirtyPercent | crates/mc-core/src/decay.rs:128-129 | a long history of importance 100 overshoots by more than 30% iff the budget lies in one of five stated intervals, the first all budgets below 561 / 1.3 |
| DecayOvershoot.AnyHistoryBounded | crates/mc-core/src/decay.rs:126-145 | whatever the importances, a budget below the natural cost never makes the cost exceed it, and off the pressure floor the cost is below 322 + 16159.584 / natural * budget |
| DecayOvershoot.AnyHistoryWithinThirtyPercent | crates/mc-core/src/decay.rs:126-129 | hence any history of high enough natural cost stays within 30% |
| DecayOvershoot.AnyHistoryUnderLargeBudget | crates/mc-core/src/decay.rs:128-129 | any history stays within 30% under a budget of at least 161917.84 / 1.3 tokens |
| DecayOvershoot.AnyHistoryBelowNatural | crates/mc-core/src/decay.rs:128-129 | and under one of at least 16325 / 1.3 tokens that its natural cost is not below |
| DecayOvershoot.MixedHistoryOvershoots | crates/mc-core/src/decay.rs:126-129 | a concrete history of mixed importances on the pressure floor that costs almost twice its budget of 41,370 tokens |
| DecayOvershoot.MixedHistoryOvershootsUnderPressure | crates/mc-core/src/decay.rs:126-129 | mixed histories of any length that overshoot a third of their natural cost by 69% |
| DecayBounds.RenderedCostBounded | crates/mc-core/src/decay.rs:9-13 | whatever the history, the cost rendered at pressure p is below 322 + 16159.584 / p |
| DecayBounds.NaturalCostBounded | crates/mc-core/src/decay.rs:130-145 | the natural cost of any history, of whatever length and importances, is at most 16,325 |
| DecayBounds.NaturalCostAttained | crates/mc-core/src/decay.rs:130-145 | 249 or more compartments of importance 100 have exactly that natural cost |
| DecayBounds.PressureBounded | crates/mc-core/src/decay.rs:130-145 | the pressure lies between 0.1 and max(16325 / budget, 0.1) |
| DecayOvershoot.ShortHistoryPressure | crates/mc-core/src/decay.rs:130-145 | twenty compartments of importance 100 under a third of their natural cost have pressure exactly 3 |
| DecayOvershoot.ShortHistoryOvershoots | crates/mc-core/src/decay.rs:126-129 | there they overshoot the budget by more than 70% and by more than 322 tokens |
| DecayRuns.ArchivedForGood | crates/mc-core/src/decay.rs:194-198 | in an append-only run a compartment is archived after 4,404 later appends and on every pass from then on |
| DecayRuns.RenderedCountIs | crates/mc-core/src/decay.rs:109-124 | the rendered count is the number of compartments below tier 5 |
| DecayRuns.RenderedCountBounded | crates/mc-core/src/decay.rs:9-13 | no pass renders more than 4,404 compartments |
| DecayRuns.NeverRepromotedIff | crates/mc-core/src/decay.rs:9-13 | a later pass renders a compartment no more verbosely under every budget iff age times natural cost has not fallen or it is archived even at the lowest pressure |
| DecayRuns.StableIff | crates/mc-core/src/decay.rs:9-13 | an append-only run never re-promotes a compartment, whatever the budget, iff every single append meets that condition for every compartment |
| DecayRuns.PressureOnlyRises | crates/mc-core/src/decay.rs:130-145 | extending a history whose importances never decrease cannot lower its pressure |
| DecayRuns.NoRepromotion | crates/mc-core/src/decay.rs:9-13 | corollary: append-only runs whose importances never decrease meet it, the pressure recomputed every pass |
| DecayRuns.NoRepromotionUnlessPressureFalls | crates/mc-core/src/decay.rs:77-90 | with arbitrary importances and any two pressures, the later not lower, no compartment is promoted in between |
| DecayRuns.AppendingCanRepromote | crates/mc-core/src/decay.rs:9-13 | a concrete run of mixed importances in which an append brings a compartment from tier 2 back to tier 1 |
| DecayRender.ComputeTiers | crates/mc-module/src/decay_render.rs:267-313 | every v2 row gets the tier it has in the history without legacy rows; legacy rows get their fixed tier |
| DecayRender.V2RowTier | crates/mc-module/src/decay_render.rs:267-313 | in the fields of the rows: a v2 row has the tier of its place in the history of the v2 importances, 50 where none is given |
| DecayRender.LegacyRowTier | crates/mc-module/src/decay_render.rs:218-225 | a legacy row is tier 3 with a user line and tier 4 without, whatever the other rows |
| DecayRender.DemoteUntilFits | crates/mc-module/src/decay_render.rs:354-376 | the array is demoted oldest-first until the body fits or all is archived; the iteration counter never cuts this short |
| DecayRender.DemoteInFields | crates/mc-module/src/decay_render.rs:362-369 | one demotion moves the oldest row that is not archived by one tier and changes nothing else |
| DecayRender.SettledIsFirstFit | crates/mc-module/src/decay_render.rs:354-376 | the result fits or is fully archived, and no smaller number of demotions would have fitted |
| DecayRender.SettledIsOldestFirst | crates/mc-module/src/decay_render.rs:362-369 | before one cut row all is archived, after it nothing has changed, and the row itself is only demoted |
| CacheRuns.ShapesInFields | crates/mc-core/src/lib.rs:45-57 | which frozen sets are rejected and which migrated, in the units they hold |
| CacheRuns.ShapeIsInvariant | crates/mc-core/src/lib.rs:45-57 | from any recognized state every later state has one m0, one m1 and otherwise reductions, and migration and rejection cannot recur |
| CacheRuns.UnknownShapeIsNeverCleared | crates/mc-core/src/lib.rs:102-104 | an unrecognized state is rejected on every pass and never changes |
| CacheRuns.MigrationIsAFreshStart | crates/mc-core/src/lib.rs:45-48 | in any run from any state the clearing migration happens at most once, on the first pass, iff the run starts from the exact legacy shape, and every later state is that of a fresh session given the same passes |
| CacheRuns.BaselinesAreTheLastOnes | crates/mc-module/src/transform.rs:4830-4946 | in any run m0, its render config and the first m1 under it are those of the last hard fold, and m1 is the delta of the last Soft since that brought a new revision |
| CacheRuns.HardExactlyWhenDue | crates/mc-core/src/lib.rs:131-142 | from a valid state a hard fold happens iff there is a trigger or a lost boundary stays lost, and leaves nothing due on the same inputs |
| CacheRuns.FlagRecordsOnePass | crates/mc-core/src/lib.rs:105-113 | after a pass the reconcile flag is set iff that pass deferred without its boundary, and then it was not set before |
| CacheRuns.ReconcileNeverStrands | crates/mc-core/src/lib.rs:102-113 | while the flag is set the pass is a hard fold or a defer with the boundary back, no delta is frozen, and the flag is gone after it |
| CacheRuns.RewritesAreAccountedFor | crates/mc-core/src/lib.rs:75-77 | over any run every rewrite of frozen bytes is paid for by a trigger, a bust opportunity with the boundary present, or two passes without the boundary |
| CacheRuns.RewritesAre | crates/mc-core/src/lib.rs:75-77 | the rewrites counted are the passes that change the frozen bytes |
| CacheRuns.AbsentBoundaryAlternates | crates/mc-core/src/lib.rs:139-146 | while the boundary stays away passes alternate between defer and hard fold, so the accounting is tight |
| CacheRuns.QuietState | crates/mc-core/src/lib.rs:97-113 | without triggers, config changes and boundary loss, m0 is never rewritten and no reconcile stays pending |
| CacheRuns.QuietPlan | crates/mc-core/src/lib.rs:147-157 | in such a stretch a pass is Soft exactly when it has a bust opportunity, no flag to clear and a new revision or a reduction not yet frozen, and otherwise replays the frozen bytes |
| CacheRuns.IdenticalBetweenSofts | crates/mc-core/src/lib.rs:89-91 | between two Softs of such a stretch every pass emits identical frozen bytes |
| CacheRuns.QuietRunRewrites | crates/mc-core/src/lib.rs:75-77 | in such a run rewrites number at most the bust opportunities |
| CacheRuns.StandingDeltaLands | crates/mc-core/src/lib.rs:66-77 | a standing delta changes nothing until the first bust opportunity and lands there, m1 and reductions together |
| CacheRuns.SoftDrains | crates/mc-core/src/lib.rs:69-74 | one Soft drains both deltas |
| CacheRuns.NoDeltaOutlivesTwoOpportunities | crates/mc-core/src/lib.rs:102-113 | in any run a bust opportunity with the boundary leaves a delta standing iff it first has to clear a reconcile flag, and the next opportunity then leaves none |
| CacheRuns.ConsecutiveSoftsNeedANewDelta | crates/mc-core/src/lib.rs:69-74 | two Softs with only defers between them need a delta the first pass did not have |
| CacheRuns.ReductionIsHeldIff | crates/mc-module/src/transform.rs:4830-4840 | across any passes a frozen reduction keeps its bytes for exactly as long as its target is in the tail of every hard fold |
| CacheRuns.FrozenBytesWereDecided | crates/mc-core/src/lib.rs:69-74 | every frozen reduction goes back, unchanged on the way, to the start of the run or to the decision of a pass that was not a defer |
| CacheRuns.ReductionsOnlyGrow | crates/mc-core/src/lib.rs:69-74 | between hard folds reductions only accumulate and keep their bytes |
| ToolRuns.ScanAcceptsItems | scripts/audit-transform-wire-parity.py:896-1053 | in the fields of the items: nothing is reported iff every maximal run of function calls with ids is directly followed by outputs with the same ids and, unless external owners are allowed, every output follows a call run |
| ToolAdjacency.ResponsesToolAdjacency | scripts/audit-transform-wire-parity.py:1008-1053 | the nested scan terminates and reports what the block-by-block specification says |
| ToolRuns.ScanIsVerdicts | scripts/audit-transform-wire-parity.py:1008-1053 | the block-by-block scan reports exactly the verdict of each position, in order |
| ToolRuns.ScanReports | scripts/audit-transform-wire-parity.py:1008-1053 | reported message indices strictly increase and a violation is reported iff it is the verdict of its position |
| ToolRuns.ScanAccepts | scripts/audit-transform-wire-parity.py:1008-1053 | nothing is reported iff every maximal call run is directly followed by results with the same ids and, unless external owners are allowed, every result directly follows a call run |
| ToolRuns.OwnedIffOwnerCalls | scripts/audit-transform-wire-parity.py:1094-1099 | walking back over results finds calls iff the result run directly follows a calling message |
| ToolAdjacency.ProviderToolAdjacency | scripts/audit-transform-wire-parity.py:1064-1114 | the two loops compute the forward and backward reports of every position, with the roles around it |
| ToolAdjacency.RolesAround | scripts/audit-transform-wire-parity.py:1084-1112 | the context of a report is the roles of up to three messages after or before it |
| ToolRegrouping.Duality | scripts/audit-transform-wire-parity.py:1064-1113 | an id is unexpected at a calling message without results iff it is an orphan in the result run directly after it |
| ToolRegrouping.DualityExactly | scripts/audit-transform-wire-parity.py:1064-1113 | for any message, whatever follows it, the two passes agree about the results after it iff it calls the same ids as the message those results are traced back to |
| ToolRegrouping.DualityFailsOnMixedMessages | scripts/audit-transform-wire-parity.py:1090-1113 | a concrete message list with a mixed message on which the passes disagree |
| ToolRegrouping.OwnedOrphansAreReported | scripts/audit-transform-wire-parity.py:1100-1113 | orphans in a run owned by a calling message are reported whether or not external owners are allowed |
| ToolRegrouping.CheckersAgreeUnderRegrouping | scripts/audit-transform-wire-parity.py:1008-1114 | merging each call run into one message makes the generic checker accept what the scan accepts and report equal missing and unexpected id sets at the same owners, for both values of the flag |
| JsoncComments.StripJsoncComments | scripts/audit-transform-wire-parity.py:1301-1337 | the character loop terminates and computes Strip |
| JsoncComments.StripKeepsTheRest | scripts/audit-transform-wire-parity.py:1301-1337 | on any well-formed token stream, line comments running up to the next carriage return or line feed, the output is the concatenation of the tokens that are not comments |
| JsoncComments.Tokenize | scripts/audit-transform-wire-parity.py:1301-1337 | every input, with unterminated strings and comments too, is a well-formed token stream |
| JsoncComments.StrippingTwiceIsStrippingOnce | scripts/audit-transform-wire-parity.py:1301-1337 | stripping is idempotent on every input |
| JsoncComments.StripIsSubsequence | scripts/audit-transform-wire-parity.py:1301-1337 | the output keeps characters of the input in order, on every input |
| JsoncComments.StripChangesOnlyComments | scripts/audit-transform-wire-parity.py:1301-1337 | the output equals the input iff there is no comment token |
| SearchFusion.FuseLists | scripts/ctx-search-benchmark.ts:993-1010 | the map holds each key once, in order of first occurrence, with its first result and the sum of 1/(60+rank) over all its occurrences |
| SearchFusion.RrfFuse | scripts/ctx-search-benchmark.ts:989-1018 | the output is the best min(limit, distinct keys) keys by score, ties by first occurrence, with reassigned scores |
| SearchFusion.KeyIsIdentity | scripts/ctx-search-benchmark.ts:997-1001 | results are fused iff they are messages with the same id, compartments with the same id, or of the same other source with the same id |
| SearchFusion.FusionByIdentity | scripts/ctx-search-benchmark.ts:989-1018 | the output holds min(limit, different results) results, no two the same, each the same as an input |
| SearchFusion.TopIsBest | scripts/ctx-search-benchmark.ts:1011-1013 | kept keys are distinct and no omitted key has a higher score than a kept one |
| SearchFusion.ScoreIgnoresListOrder | scripts/ctx-search-benchmark.ts:1003-1010 | fused scores do not depend on the order of the lists |
| SearchFusion.FinalScoresFall | scripts/ctx-search-benchmark.ts:1014-1017 | reassigned scores fall strictly from 1, by one share of the output per rank, and stay positive |
| StableSort.SortIsStable | scripts/ctx-search-benchmark.ts:1011-1012 | the sort orders by key, lists every position once and keeps ties in order |
| Latency.PercentileIsLeast | scripts/ctx-search-benchmark.ts:1050-1054 | the picked value is the least sample that at least quantile * n samples do not exceed |
| Latency.LatencySummary | scripts/ctx-search-benchmark.ts:1056-1074 | the loop splits the samples into first-of-their-project and the rest, and summarizes both |
| Latency.ColdAndWarmPartition | scripts/ctx-search-benchmark.ts:1060-1067 | the cold times are those of exactly the samples no earlier sample of whose project exists, in order, and the warm times those of all the others |
| Latency.OneColdPerProject | scripts/ctx-search-benchmark.ts:1060-1067 | every project has exactly one cold sample |
| CavemanDepth.CompressedDepthState | scripts/audit-transform-wire-parity-live.ts:566-609 | the loop yields the band counts, the exact tag range of each band and the inversion count |
| CavemanDepth.DepthInFields | scripts/audit-transform-wire-parity-live.ts:582-582 | the depth column wins over the caveman column, and a row with neither has depth 0 |
| CavemanDepth.BandInFields | scripts/audit-transform-wire-parity-live.ts:582-592 | depths 1, 2 and 3 are the lite, full and ultra bands and others belong to none |
| CavemanDepth.NoInversionsIff | scripts/audit-transform-wire-parity-live.ts:579-584 | with distinct tags the inversion count is zero iff no depth exceeds 4 and compression never deepens from an older tag to a newer one |
| CavemanDepth.NoInversionsIffBandsAreOrdered | scripts/audit-transform-wire-parity-live.ts:566-609 | for depths 1 to 3 and distinct tags the inversion count is zero iff every deeper band's largest tag is below every shallower band's smallest |

## Left out

- Decay.ComparisonIsExact: exact reals, so f64 rounding at a boundary and NaN are not modelled; indices and importances are unbounded integers instead of u32 and i32.
- DecayRender.ComputeTiers: filtering of rows without content and the rendering of headings and bodies are not modelled.
- CachePass.SoftDelta: a Soft that also extends coverage moves the boundary and prunes covered reductions in the module; the classifier's contract does not mention it and it is not modelled.
- CachePass.PlanFor: the module's later overrides of the plan (subagent passes, lineage descent, synthetic todo state) and its error returns are not modelled.
- CachePass.HardFold: reductions are a map by target, so the order of the frozen reduction units is not modelled; the mural, strip and caveman units a fold also freezes are not modelled, and the fold's new tail is the tail of the pass.
- CachePass.ValidM0M1Shape: the classifier's documented shape; the module's own check also admits mural, strip, caveman and transition-marker units.
- CachePass.InputOf: the bust opportunity is an arbitrary input; the module also opens it whenever a reduction is pending.
- DecayBudget.SelfTuningAbove: equal importances, because it is false for mixed ones (DecayOvershoot.MixedHistoryOvershoots and DecayOvershoot.MixedHistoryOvershootsUnderPressure); DecayOvershoot.AnyHistoryBounded states what holds for all.
- DecayBudget.SelfTuningBelow: equal importances, for the same reason.
- DecayBudget.SelfTuningOnLongHistories: equal importances, for the same reason.
- ToolAdjacency.ProviderToolAdjacency: the extraction of ids and roles for families other than Responses is not modelled.
- Latency.PercentileIsLeast: states the value before `toFixed` display rounding.
- CavemanDepth.CompressedDepthState: the boundary oracle compares with an imported target-depth function that is not part of this model.
- SearchFusion.RrfFuse: a negative limit, which no caller passes, is not modelled.
- SearchFusion.KeyIsIdentity: other sources are assumed to be named without a colon and neither "message" nor "compartment"; with a colon two different results could share a key.
- The internals of the cache core crate are not part of this model.
- The live-capture window widening, the lane-coordinate joins and the raw chunk search: grouping and filtering that would add only easy members.
- SQLite, files, subprocesses, HTTP, hashing and argument parsing.
