# Verified model of the cstack core

A Dafny model of the parts of the repository that carry an algorithm or a protocol, with proofs about them.
The command is `dafny verify dfyconfig.toml`.

## What is modelled

* **Narrative batches** (`Narrative*.dfy`). `generate_batch` runs coroutines under a semaphore that share a budget,
  a cache table, counters and one last-response field. Each stretch of code between two suspensions is one step of a
  transition system (`NarrativeBatch.Step`); a schedule is any sequence of steps chosen by the event loop and the
  provider (`Replay`). `NarrativeGenerator` holds the same state in objects updated in place, each method proved equal
  to its step. The theorems quantify over all schedules: accounting, what earns each outcome, termination,
  traceability of every stored row, bounds on spend and on repeated generation, runs that reach those bounds, exactly
  when the cap is a guarantee, and what carries over to later batches on the same budget and cache
  (`NarrativeRuns.dfy`).
* **Sign-in scoring** (`SignIn*.dfy`). The history loop, the grouping and sorting of a batch, routing, rule floors and
  flags, against declarative forms; causality, isolation by user, first-sighting counts, exactly when the order of
  the input matters, and what watching privileged users changes.
* **Coverage matrix** (`Tenant.dfy`, `Coverage*.dfy`). Policy scope, segment resolution, the 25 cells and their
  severities; the exact orders on rows and columns, monotonicity, and what adding or reordering policies can do.
* **Exclusion hygiene** (`Exclusion*.dfy`). The second, separately written resolver, proved to agree with the coverage
  evaluator; what the analysis reports and which rows it leaves.
* **Findings** (`Findings.dfy`). Identity computed from content and the insert-once table, over any number of runs.
* **Log scrubber** (`LogScrubber*.dfy`, `LogHeaders.dfy`). The scan that redacts `header=<value>`, and the loop that
  applies it for each known header.
* **Promotion gate and prompt comparison** (`ShadowScoring.dfy`, `Promotion.dfy`, `PromptComparison.dfy`).

`Sequences.dfy`, `Ordering.dfy` and `Text.dfy` hold folds, the stable sort and string facts used throughout.

Floating-point numbers are `real`, timestamps are integers, tables are maps, digests, predictions and judge answers
are arbitrary functions. Injectivity of a digest is assumed only where a row below says so.

## Where code and documentation disagree

* The comment on the budget estimate (generator.py, line 150) calls 500 output tokens a cautious ceiling, while the
  requests ask for up to 900. `EstimateIsCeilingExactly` and `CapIsGuaranteeExactly` say exactly when the estimate is a
  ceiling and the cap a guarantee: at 900 tokens only for a model without a price. `HonestSpendBound` gives what holds
  when costs stay within estimates.
* The quick look for alternate MFA coverage (analyser.py, line 299) promises to tell whether some other enabled MFA
  policy covers a user. It errs in both directions (`GroupExclusionsHideEachOther`, `NarrowCoverageGoesUnseen`);
  `QuickLookIsExact` and `BypassReportsAreExact` say exactly when it, and the findings that rest on it, are right.
* The logging module promises to strip the known headers from any record that names them (logging_setup.py, lines 3 to
  6). The loop scrubs the original message once per header and keeps the last result, so a message with two headers
  keeps a value (`TwoValuesDefeatThePass`); `FilterRedactsExactly` says exactly when the promise is kept.

## Model

| member | source | states |
|---|---|---|
| `NarrativeContent.EstimateIsCeilingExactly` | packages/llm-narrative/src/cstack_llm_narrative/generator.py:150-156 | the estimate (a quarter of the prompt length, at least one token, and 500 output tokens) bounds the cost of every reply with up to x more input than that and up to L output if and only if x at the input price and L at the output price cost no more than 500 output tokens |
| `NarrativeContent.WordsAreMaximalRuns` | packages/llm-narrative/src/cstack_llm_narrative/generator.py:342-346 | the word pattern finds exactly one word per maximal run of word characters |
| `NarrativeContent.AcceptedExactly` | packages/llm-narrative/src/cstack_llm_narrative/generator.py:330-339 | a reply is accepted if and only if it has all four headings, neither long dash, and at most 320 maximal word runs |
| `NarrativeCache.CacheKeyIdentifiesRequest` | packages/storage/src/cstack_storage/narrative_cache.py:66-85 | with a collision-free digest, two requests share a cache key if and only if rule, evidence, prompt version and model all agree; the tenant takes no part |
| `NarrativeCache.NarrativeCache.GetCachedNarrative` | packages/storage/src/cstack_storage/narrative_cache.py:88-134 | a hit returns the stored row with use count and recency bumped and leaves that row in the table; a miss changes nothing |
| `NarrativeCache.NarrativeCache.StoreNarrative` | packages/storage/src/cstack_storage/narrative_cache.py:137-168 | one row per key, the newest write replacing the older |
| `NarrativeCache.NarrativeCache.EvictOld` | packages/storage/src/cstack_storage/narrative_cache.py:171-188 | exactly the rows last used before the cutoff go, and the number returned is how many went |
| `NarrativeCache.HitsKeepTheRow` | packages/storage/src/cstack_storage/narrative_cache.py:107-188 | any number of hits leaves a narrative as it is, raises its use count by that number and dates its last use; it survives an eviction up to its last hit, and the other rows fare as without the hits |
| `NarrativeBatch.FindingsShareKeysExactly` | packages/storage/src/cstack_storage/narrative_cache.py:66-85 | with a collision-free digest, two findings of any two configurations share a cache key if and only if rule, evidence, prompt version and model agree |
| `NarrativeGenerator.NarrativeBudget.WouldExceed` | packages/llm-narrative/src/cstack_llm_narrative/narrative.py:89-90 | true exactly when the spend plus the estimate is strictly above a finite cap |
| `NarrativeGenerator.NarrativeBudget.Record` | packages/llm-narrative/src/cstack_llm_narrative/narrative.py:92-93 | recording adds exactly the cost; cap and skip count stay |
| `NarrativeGenerator.NarrativeGenerator.BeginTask` | packages/llm-narrative/src/cstack_llm_narrative/generator.py:116-164 | the code before the first suspension performs the transition `BeginStep`: cache hit, failed rendering, budget skip or first call, on the shared budget and cache |
| `NarrativeGenerator.NarrativeGenerator.RecordNarrative` | packages/llm-narrative/src/cstack_llm_narrative/generator.py:171-193 | spend and cache row are taken from the shared last response, as in `RecordStep` |
| `NarrativeGenerator.NarrativeGenerator.ResumeTask` | packages/llm-narrative/src/cstack_llm_narrative/generator.py:271-306 | what follows a reply performs the transition `ResumeStep`: accept and record, ask once more, or give up; a provider error or another exception ends the coroutine |
| `NarrativeGenerator.NarrativeGenerator.RunEvent` | packages/llm-narrative/src/cstack_llm_narrative/generator.py:230-251 | any event of the event loop, enabled or not, changes generator, budget and cache exactly as `Step` does |
| `NarrativeGenerator.NarrativeGenerator.GenerateBatch` | packages/llm-narrative/src/cstack_llm_narrative/generator.py:221-255 | for every list of findings and every schedule of the event loop the objects end in the state `Replay` gives; the batch raises if and only if some event is a failed rendering of an uncached finding or an exception no handler names, and when it returns, the four counters add up to the number of findings and all permits are back |
| `NarrativeBatchSafety.StepMoves` | packages/llm-narrative/src/cstack_llm_narrative/generator.py:230-306 | every enabled step of any coroutine is one of the listed moves: which permit, counter, spend, cache and log entries change, and which stay |
| `NarrativeBatchSafety.EveryScheduleIsSound` | packages/llm-narrative/src/cstack_llm_narrative/generator.py:221-306 | in every state of every schedule: permits plus running coroutines equal max_concurrency, each counter equals the number of findings that ended so, provider calls lie between the per-finding bounds, cap and findings are unchanged, and every stored row is traceable |
| `NarrativeOutcomes.OutcomesAreEarned` | packages/llm-narrative/src/cstack_llm_narrative/generator.py:116-306 | on every schedule as many coroutines end in each outcome as events earn it: a hit for a cached key, a skip when spend plus estimate is above the cap, a narrative for an accepted reply, an error for a provider error or a second rejected reply, a crash for a failed rendering of an uncached finding or any other exception |
| `NarrativeOutcomes.CountersAreEarned` | packages/llm-narrative/src/cstack_llm_narrative/generator.py:230-251 | so each of the four counters of a batch counts exactly the events that earn it |
| `NarrativeOutcomes.HandledBatchAddsUp` | packages/llm-narrative/src/cstack_llm_narrative/generator.py:230-255 | when no template fails and the provider raises only its own errors, no coroutine crashes, and a finished batch has hits + generated + skipped + errored equal to the number of findings |
| `NarrativeOutcomes.FailuresRaise` | packages/llm-narrative/src/cstack_llm_narrative/generator.py:230-255 | one effective failure of the other kind crashes its coroutine for good, whatever comes before and after |
| `NarrativeBatchTheorems.FinishedBatchAddsUp` | packages/llm-narrative/src/cstack_llm_narrative/generator.py:221-255 | a finished batch has all permits back; hits, generated, skipped, errored and uncaught failures cover every finding once; provider calls are at least generated + errored and at most twice generated + errored + uncaught; budget skips equal the batch counter |
| `NarrativeBatchTheorems.StoredRowsAreTraceable` | packages/llm-narrative/src/cstack_llm_narrative/generator.py:164-193 | despite the shared last response, every row stored in any schedule passed validation and takes text, model and token counts from one reply to that same coroutine; no finding stores twice; recorded spend rises by exactly the priced tokens of the stored rows |
| `NarrativeBatchTheorems.StoredRowsSpeakForFindings` | packages/llm-narrative/src/cstack_llm_narrative/generator.py:171-193 | every stored row has the key, rule, evidence digest and prompt version of one finding of the batch, and the text, provider, model, tokens, latency and moment of one accepted reply to that finding's own coroutine |
| `NarrativeBatchTheorems.CacheRowsAreTraceable` | packages/llm-narrative/src/cstack_llm_narrative/generator.py:117-193 | every cache row after any schedule is an original narrative or a validated one under its own key |
| `NarrativeBatchTheorems.NeverStuck` | packages/llm-narrative/src/cstack_llm_narrative/generator.py:231-251 | with at least one permit, every accounted state with an unfinished finding has an enabled step |
| `NarrativeBatchTheorems.BatchTerminates` | packages/llm-narrative/src/cstack_llm_narrative/generator.py:221-306 | no schedule takes more than four effective steps per finding, and one that cannot go on has finished all of them |
| `NarrativeBatchTheorems.SpendStaysUnderCeiling` | packages/llm-narrative/src/cstack_llm_narrative/generator.py:154-176 | over every schedule, spend plus the reserve of the calls in flight stays under a ceiling set by the cap, the other permits and the excess of cost over estimate |
| `NarrativeBatchTheorems.BudgetBound` | packages/llm-narrative/src/cstack_llm_narrative/generator.py:154-176 | if no recorded narrative costs more than A, then on every schedule spend + A per call in flight is at most cap + A per permit, or what was spent at the start if that is more (`Times` is the product) |
| `NarrativeBatchTheorems.HonestSpendBound` | packages/llm-narrative/src/cstack_llm_narrative/generator.py:150-176 | if no cost is above its own estimate, the spend ends at most one estimate for every permit but one above the cap, or where it started if that is more; a serial generator never takes it past the cap |
| `NarrativeRuns.HonestBatchesBound` | packages/llm-narrative/src/cstack_llm_narrative/narrative.py:79-93 | over any sequence of honest batches on one budget the same bound holds: the overshoot of one batch is not added to that of the next |
| `NarrativeRuns.OverspentBudgetBuysNothing` | packages/llm-narrative/src/cstack_llm_narrative/narrative.py:89-90 | once the spend is above the cap, no later batch calls the provider or spends anything, whatever its replies would cost |
| `NarrativeDeduplication.GeneratedPerKey` | packages/llm-narrative/src/cstack_llm_narrative/generator.py:117-145 | a cache key absent at the start is generated at most max_concurrency times, a key present never, on every schedule |
| `NarrativeDeduplication.GeneratedInAll` | packages/llm-narrative/src/cstack_llm_narrative/generator.py:117-145 | a batch generates at most max_concurrency narratives per distinct new key, so repeated findings cannot make it generate more |
| `NarrativeDeduplication.LaterTasksHit` | packages/llm-narrative/src/cstack_llm_narrative/generator.py:124-145 | once a key is stored, every coroutine that starts on it later, however far later, is a cache hit that calls nobody and spends nothing |
| `NarrativeRuns.GeneratedPerKeyOverBatches` | packages/llm-narrative/src/cstack_llm_narrative/generator.py:117-145 | over any sequence of batches on one cache a key absent at the start is generated at most once per permit in all of them together, a key present never |
| `NarrativeRuns.OneBatchGenerates` | packages/llm-narrative/src/cstack_llm_narrative/generator.py:117-145 | and only one of the batches generates it |
| `NarrativeTightness.BoundsAreReached` | packages/llm-narrative/src/cstack_llm_narrative/generator.py:117-193 | for every model, prompt and number of permits one honest run generates a key once per permit and passes the cap by one estimate per permit but one: neither bound can be improved |
| `NarrativeTightness.CapKeptExactlyWhenSerial` | packages/llm-narrative/src/cstack_llm_narrative/generator.py:150-176 | with honest estimates the cap is a guarantee if and only if there is exactly one permit |
| `NarrativeTightness.KeysUniqueExactlyWhenSerial` | packages/llm-narrative/src/cstack_llm_narrative/generator.py:117-145 | the cache deduplicates a batch if and only if there is exactly one permit |
| `NarrativeTightness.UncoveredReplyPassesTheCap` | packages/llm-narrative/src/cstack_llm_narrative/generator.py:150-157 | for every model and prompt, a reply whose input and output the assumed 500 output tokens do not pay for takes a serial run past its cap |
| `NarrativeTightness.LongPromptsPassTheCap` | packages/llm-narrative/src/cstack_llm_narrative/generator.py:150-176 | for every model with a price, two permits are enough to pass the cap even when replies are empty |
| `NarrativeTightness.CapIsGuaranteeExactly` | packages/llm-narrative/src/cstack_llm_narrative/generator.py:150-176 | for every model, number of permits, input slack x (second requests repeat the first reply) and output limit L: no batch on any schedule passes its cap if and only if the model charges nothing, or there is one permit and x at the input price and L at the output price cost no more than 500 output tokens |
| `NarrativeTightness.AssumedOutputLeavesNoRoom` | packages/llm-narrative/src/cstack_llm_narrative/generator.py:282-303 | so with replies of up to 500 tokens a serial cap is a guarantee only if the model charges nothing or no accepted reply, such as that to a second request, has more input than assumed |
| `NarrativeTightness.ConfiguredCapIsGuaranteeExactly` | packages/llm-narrative/src/cstack_llm_narrative/generator.py:265-303 | with the 900 output tokens the requests ask for, and whatever the input, the cap is a guarantee only for a model without a price, serial or not |
| `SignInHistory.BuildHistoryFromSignins` | packages/ml-features/src/cstack_ml_features/history.py:51-98 | the sort-and-break loop yields the history of the strictly earlier sign-ins (`HistoryOf`) |
| `SignInHistoryFacts.WindowedListsAreExact` | packages/ml-features/src/cstack_ml_features/history.py:64-73 | countries and ASNs are those of the sign-ins with as_of - window <= t < as_of, in time order, repeats included |
| `SignInHistoryFacts.SeenSetsAreExact` | packages/ml-features/src/cstack_ml_features/history.py:74-81 | devices, browsers and operating systems are exactly the non-empty values on sign-ins strictly before as_of, of any age |
| `SignInHistoryFacts.LastValuesAreLatest` | packages/ml-features/src/cstack_ml_features/history.py:82-88 | last time, latitude and longitude are each the latest earlier known value, or absent when there is none |
| `SignInHistoryFacts.OneSignInHistory` | packages/ml-features/src/cstack_ml_features/history.py:51-98 | the history after one sign-in inside the window is that sign-in, field by field |
| `SignInHistoryFacts.InputOrderIsIrrelevant` | packages/ml-features/src/cstack_ml_features/history.py:64-64 | with distinct timestamps the history does not depend on the order of the input |
| `SignInOrder.TiesStayInOrder` | packages/ml-features/src/cstack_ml_features/history.py:64-64 | the sort keeps sign-ins of one moment in input order, between the sorted earlier and the sorted later ones |
| `SignInOrder.ListFixedExactly` | packages/ml-features/src/cstack_ml_features/history.py:64-73 | a windowed list is the same for every permutation of the input if and only if any two sign-ins of one moment inside the window agree on the field |
| `SignInOrder.LastFixedExactly` | packages/ml-features/src/cstack_ml_features/history.py:82-88 | a last value is the same for every permutation if and only if the earlier sign-ins at the latest moment with a known value agree on it |
| `SignInOrder.InputOrderIsIrrelevantExactly` | packages/ml-features/src/cstack_ml_features/history.py:64-98 | the whole history is the same for every permutation of the input if and only if ties inside the window agree on country and network and the latest earlier positions agree |
| `SignInHistoryFacts.HistoryIsCausal` | packages/ml-anomaly/src/cstack_ml_anomaly/scoring.py:96-106 | the history of a row depends on the user's own strictly earlier sign-ins and on nothing else in the batch |
| `SignInHistoryFacts.AddedSignInsAreInvisible` | packages/ml-anomaly/src/cstack_ml_anomaly/scoring.py:88-108 | adding anywhere sign-ins of other users, or of the same user at or after the moment, leaves the history unchanged |
| `SignInFeatures.HybridRuleBoost` | packages/ml-anomaly/src/cstack_ml_anomaly/rules.py:67-80 | the boost is the strongest floor among the four rules that fire and zero when none does |
| `SignInFeatures.OffHoursAdminBoost` | packages/ml-anomaly/src/cstack_ml_anomaly/rules.py:101-142 | the fifth floor applies exactly to privileged users, with the flag set, when their time model puts the row at or above its ninth decile or, without such a model, the hour is at night; never without a decile |
| `SignInFeatures.OffHoursRuleReads` | packages/ml-anomaly/src/cstack_ml_anomaly/rules.py:101-142 | a user with a time model is judged by it and its decile whatever the hour, and never without the decile; any other privileged user by the clock, from 22 to 6 |
| `SignInFeatures.RuleScoreBoosts` | packages/ml-anomaly/src/cstack_ml_anomaly/rules.py:145-178 | one boost per row, the strongest floor of all five rules, or of four when no users are given; refused when row and user counts differ |
| `SignInPrivilege.ComputePrivilegedUserIds` | packages/ml-anomaly/src/cstack_ml_anomaly/scoring.py:191-210 | the third role resolver of the repository finds exactly the members of the coverage package's segment of tier-0 roles |
| `SignInPrivilege.WatchTouchesTierZeroOnly` | packages/ml-anomaly/src/cstack_ml_anomaly/scoring.py:245-271 | in a scored batch, watching the privileged users changes the result of a sign-in if and only if the flag is set, its user is in that segment, the sign-in is unusual and its score was below 0.85; it is then 0.85 and flagged |
| `SignInScoring.BuildScoreItems` | packages/ml-anomaly/src/cstack_ml_anomaly/scoring.py:96-106 | rows are laid out by user alphabetically and by time within a user, each with its own strictly-prior history, and the user list runs parallel |
| `SignInScoring.BundleScoreRows` | packages/ml-anomaly/src/cstack_ml_anomaly/scoring.py:111-144 | each row is scored by its user's model, else the pooled one, else as rule-only with score 0 and no prediction |
| `SignInScoring.CombineScores` | packages/ml-anomaly/src/cstack_ml_anomaly/scoring.py:265-271 | the final score is the larger of model score and boost, and the flag is set by the prediction or at 0.7 |
| `SignInScoring.ScoreBatch` | packages/ml-anomaly/src/cstack_ml_anomaly/scoring.py:231-305 | the independently recomputed ordering pairs every result with the row of its own sign-in: results are `ScoreIn` over the ordered sign-ins |
| `SignInScoringFacts.OrderedIsPermutation` | packages/ml-anomaly/src/cstack_ml_anomaly/scoring.py:258-263 | the output order is a permutation of the input sign-ins |
| `SignInScoringFacts.RowsAreInOrder` | packages/ml-anomaly/src/cstack_ml_anomaly/scoring.py:258-263 | the output is ordered by user and, within a user, by time |
| `SignInScoringFacts.ScoringIsIsolatedByUser` | packages/ml-anomaly/src/cstack_ml_anomaly/scoring.py:88-108 | a user's results are exactly those of scoring that user's sign-ins alone |
| `SignInScoringFacts.ScoringIsCausal` | packages/ml-anomaly/src/cstack_ml_anomaly/scoring.py:88-108 | a row's features and score stay the same when sign-ins of others, or of the user from then on, are added |
| `SignInScoringFacts.OwnModelComesFirst` | packages/ml-anomaly/src/cstack_ml_anomaly/scoring.py:126-144 | in a scored batch a user with a model of their own has its tier, raw score and prediction, any other user those of the pooled model, and without either the tier rule-only, a raw score of 0 and no prediction |
| `SignInScoringFacts.OtherModelsAreIrrelevant` | packages/ml-anomaly/src/cstack_ml_anomaly/scoring.py:126-144 | two bundles that hold the same model for a user give the user the same score, whatever other models they hold, a pooled one included |
| `SignInScoringFacts.RulesReadTheSignIns` | packages/ml-anomaly/src/cstack_ml_anomaly/rules.py:67-80 | each rule fires on a row if and only if the sign-ins of the user themselves show it: speed above 1500, country and network unseen for thirty days, a failure code with a network unseen so long, a legacy client without MFA |
| `SignInScoringFacts.SuspicionIsScored` | packages/ml-anomaly/src/cstack_ml_anomaly/scoring.py:265-271 | with rules on each of these puts its floor of 0.95, 0.85, 0.85 or 0.8 under the score and flags the sign-in |
| `SignInScoringFacts.OnlySuspicionIsScored` | packages/ml-anomaly/src/cstack_ml_anomaly/scoring.py:265-271 | and they add nothing else: a score is that of the model alone, or the floor of a rule the sign-in is suspicious under, or 0.85 where the off-hours rule fires |
| `SignInScoringFacts.RulesOnlyRaise` | packages/ml-anomaly/src/cstack_ml_anomaly/scoring.py:245-271 | every score is the larger of its own model score and its own floor, and switching rules on lowers no score and clears no flag |
| `SignInScoringFacts.ResultsCoverTheBatch` | packages/ml-anomaly/src/cstack_ml_anomaly/scoring.py:258-294 | results name every sign-in of the batch, with its user, exactly once |
| `SignInScoringFacts.NewPlaceMeansNotRecent` | packages/ml-features/src/cstack_ml_features/extractors.py:84-95 | a country or ASN is reported new if and only if it is known and on no strictly earlier sign-in of the user within thirty days |
| `SignInScoringFacts.NewMeansFirstSeen` | packages/ml-features/src/cstack_ml_features/extractors.py:136-154 | the device, browser and operating system columns of a scored batch are 1 if and only if the value is present and on no strictly earlier sign-in of the user |
| `SignInScoringFacts.NewnessCountsDistinctValues` | packages/ml-features/src/cstack_ml_features/extractors.py:136-154 | per user each of these columns sums to the number of distinct values plus the number of rows whose value has no strictly earlier sign-in but another one before it in the batch with the same value and timestamp; so it is exact if and only if there are no such ties |
| `SignInScoringFacts.DistinctTimesCountExactly` | packages/ml-features/src/cstack_ml_features/extractors.py:136-154 | with distinct timestamps the column sums to exactly the user's number of distinct values |
| `Tenant.GroupMembersAreReached` | packages/audit-coverage/src/cstack_audit_coverage/matrix.py:126-130 | the set gathered over the listed groups is exactly the members of some listed group |
| `Tenant.RoleMembersAreReached` | packages/audit-coverage/src/cstack_audit_coverage/matrix.py:131-135 | the set gathered over the roles is exactly the members of a role listed by id or by template |
| `Coverage.MembersOfRoleTemplates` | packages/audit-coverage/src/cstack_audit_coverage/segments.py:101-118 | the members are exactly the principals who hold one of the templates in either of the two places roles are recorded |
| `Coverage.ResolveSegmentMembers` | packages/audit-coverage/src/cstack_audit_coverage/segments.py:79-98 | the resolved set is exactly who belongs to the segment |
| `Coverage.ServiceNamesExactly` | packages/audit-coverage/src/cstack_audit_coverage/segments.py:55-73 | a user counts as a service account by name if and only if the joined names spell one of the five patterns at its place, in any case |
| `Coverage.NamesHoldBoth` | packages/audit-coverage/src/cstack_audit_coverage/segments.py:70-70 | the joined names hold the display name in front and the principal name behind, with a blank between exactly when there are both |
| `CoverageFacts.ServiceAccountsExactly` | packages/audit-coverage/src/cstack_audit_coverage/segments.py:64-76 | service accounts are the users with such a name and those without a sign-in for 365 whole days or ever |
| `CoverageFacts.GuestsInAnyCase` | packages/audit-coverage/src/cstack_audit_coverage/segments.py:90-91 | guests are the users whose type spells guest, in any case |
| `Tenant.InclusionMirrorsExclusion` | packages/audit-coverage/src/cstack_audit_coverage/matrix.py:115-156 | a policy covers everyone when it is for all users or for guests, else whom a condition with the same lists on the other side excludes, and never whom it excludes itself |
| `Tenant.TemplatesNameRoles` | packages/audit-coverage/src/cstack_audit_coverage/matrix.py:131-135 | a role is reached alike under its id and under its template, when no other role answers to either |
| `Coverage.IncludedCandidates` | packages/audit-coverage/src/cstack_audit_coverage/matrix.py:119-141 | a candidate is included exactly when one of the include conditions names them |
| `Coverage.ExcludedPrincipals` | packages/audit-coverage/src/cstack_audit_coverage/matrix.py:143-156 | exactly the users an exclude condition names |
| `Coverage.UsersInScope` | packages/audit-coverage/src/cstack_audit_coverage/matrix.py:100-156 | true exactly when some candidate is included and not excluded |
| `Coverage.ComputeCell` | packages/audit-coverage/src/cstack_audit_coverage/matrix.py:76-96 | a cell lists the applicable policies in order, carries the strongest of their levels, and counts the members of its segment |
| `Coverage.ComputeCoverage` | packages/audit-coverage/src/cstack_audit_coverage/matrix.py:59-97 | the matrix has 25 cells, row by row over the segments, each describing its own pair |
| `CoverageFacts.CellAnswersExactly` | packages/audit-coverage/src/cstack_audit_coverage/matrix.py:76-96 | a cell lists an id if and only if a policy of that id that is not disabled covers some member and has the app in scope, and it reaches a level if and only if one of these policies gives it |
| `CoverageFacts.ReportingShows` | packages/audit-coverage/src/cstack_audit_coverage/matrix.py:182-184 | a report-only policy that covers a member and has the app in scope is listed and lifts the cell to report-only |
| `CoverageFacts.DisabledIsInvisible` | packages/audit-coverage/src/cstack_audit_coverage/matrix.py:78-79 | a disabled policy changes no cell, wherever it is inserted |
| `CoverageFacts.StrongestIsMaximum` | packages/audit-coverage/src/cstack_audit_coverage/matrix.py:84-88 | the running best level is an upper bound of the applicable levels and, above no control, one of them |
| `CoverageFacts.RowOrderIsExact` | packages/audit-coverage/src/cstack_audit_coverage/segments.py:79-118 | one segment is inside another in every tenant if and only if they are equal, tier-0 in all admins, or guests or service accounts in all users; admins need not be listed users |
| `CoverageFacts.ColumnOrderIsExact` | packages/audit-coverage/src/cstack_audit_coverage/matrix.py:159-179 | scope on one app segment implies scope on another for every policy if and only if all-apps is below high-risk, admin portals and M365, and high-risk below admin portals |
| `CoverageFacts.MatrixIsMonotone` | packages/audit-coverage/src/cstack_audit_coverage/matrix.py:59-97 | along both orders at once: level and member count do not fall, and the applicable list below is the one above, filtered |
| `CoverageFacts.MorePoliciesNeverHurt` | packages/audit-coverage/src/cstack_audit_coverage/matrix.py:78-88 | with a larger set of policies every cell keeps its applicable policies, its level does not fall and its severity does not rise |
| `CoverageFacts.AddingAPolicyNeverHurts` | packages/audit-coverage/src/cstack_audit_coverage/findings.py:72-110 | a policy inserted anywhere in the list lowers no level and worsens no severity in the whole matrix |
| `CoverageFacts.PolicyOrderIsIrrelevant` | packages/audit-coverage/src/cstack_audit_coverage/findings.py:72-110 | permuting the policies changes no level, no member count and no severity |
| `CoverageFacts.MatrixIsDetermined` | packages/audit-coverage/src/cstack_audit_coverage/matrix.py:59-97 | the inputs fix the matrix |
| `CoverageFacts.OneCellPerPair` | packages/audit-coverage/src/cstack_audit_coverage/matrix.py:70-97 | each pair of segments has exactly one cell, at its computed place |
| `CoverageFacts.TierZeroGapsAreWorst` | packages/audit-coverage/src/cstack_audit_coverage/findings.py:72-94 | when tier-0 roles have members, their finding in a column is at least as severe as that of all admins; when they have none there is no finding |
| `CoverageFacts.InnerGapsAreWorstExactly` | packages/audit-coverage/src/cstack_audit_coverage/findings.py:72-110 | for a segment inside another, its gap is at least as severe in every tenant and for every set of policies if and only if the pair is not guests on legacy authentication, nor service accounts on M365 core or legacy authentication |
| `CoverageFacts.SeveritiesCompareExactly` | packages/audit-coverage/src/cstack_audit_coverage/findings.py:87-110 | how many ranks milder the same gap is for all admins, guests, all users and service accounts than for the tier-0 roles, app by app, and how severe it is there |
| `CoverageFacts.GapIsReportedExactly` | packages/audit-coverage/src/cstack_audit_coverage/findings.py:72-85 | a gap is reported if and only if the segment has members or is all users and no policy of the tenant both applies to the pair and enforces at least a managed device |
| `CoverageFacts.GapClosesExactly` | packages/audit-coverage/src/cstack_audit_coverage/findings.py:72-85 | a policy inserted anywhere closes a reported gap if and only if it applies to that pair and enforces at least a managed device |
| `CoverageFacts.FindingsNeverWorsen` | packages/audit-coverage/src/cstack_audit_coverage/findings.py:18-110 | after a policy is added every finding of the matrix was there before, under the same rule and at least as severe |
| `CoverageFindings.FindingsFromCoverage` | packages/audit-coverage/src/cstack_audit_coverage/findings.py:18-69 | one finding per flagged cell, in cell order, and none for the others |
| `CoverageFacts.RuleIdsTellSegments` | packages/audit-coverage/src/cstack_audit_coverage/findings.py:32-32 | a coverage rule id determines both segments |
| `CoverageFacts.EveryFlaggedCellGetsARow` | packages/audit-coverage/src/cstack_audit_coverage/findings.py:18-69 | when cells are for different pairs, writing their findings to a fresh table leaves exactly one row per flagged cell, with a collision-free digest and whatever the ids of tenant and policies |
| `CoverageFacts.MatrixFillsTheTable` | packages/audit-coverage/src/cstack_audit_coverage/findings.py:18-69 | so the first write of a whole matrix adds exactly as many rows as it has flagged cells |
| `CoverageFacts.LevelIsEarned` | packages/audit-coverage/src/cstack_audit_coverage/matrix.py:182-206 | MFA-or-better exactly for enabled policies that ask for MFA or block, the device levels exactly for those that ask for a managed device, report-only exactly for report-only policies |
| `CoverageFacts.MoreControlsNeverHurt` | packages/audit-coverage/src/cstack_audit_coverage/matrix.py:182-206 | more grant controls never lower a policy's level |
| `CoverageFacts.AppScopeIsByApplication` | packages/audit-coverage/src/cstack_audit_coverage/matrix.py:159-179 | an id-based segment is in scope when the policy takes in one of its applications, all-apps when it takes in every application, legacy auth when it names a legacy client type |
| `CoverageFacts.ReportOnlyTakesOneStep` | packages/audit-coverage/src/cstack_audit_coverage/findings.py:87-110 | report-only coverage is exactly one rank less severe than none |
| `Findings.IdIsSharedExactly` | packages/audit-core/src/cstack_audit_core/finding.py:46-60 | with a collision-free digest, two findings share an id if and only if tenant, rule and the comma-separated pieces of their sorted objects agree, whatever the objects are; only the rule ids, and the tenant ids when they differ, must be free of bars |
| `Findings.IdIdentifiesContent` | packages/audit-core/src/cstack_audit_core/finding.py:46-60 | when no object holds a comma and there is one at least, that is the same tenant, rule and objects in any order |
| `Ordering.LexLeByFirstDifference` | packages/audit-core/src/cstack_audit_core/finding.py:58-58 | texts are ordered by their first difference, and without one the shorter comes first |
| `Findings.SeparatorsCanCollide` | packages/audit-core/src/cstack_audit_core/finding.py:58-60 | a remark to this: for any two texts in order, one object `a,b` shares its id with the two objects `a` and `b`, and no objects share it with one empty id |
| `Findings.FindingsTable.WriteFindings` | packages/audit-core/src/cstack_audit_core/storage.py:10-49 | existing rows are kept, new ids are inserted once, and the number returned is the growth of the table |
| `Findings.WritesCompose` | packages/audit-core/src/cstack_audit_core/storage.py:10-49 | writing xs and then ys equals writing xs + ys |
| `Findings.WrittenIds` | packages/audit-core/src/cstack_audit_core/storage.py:20-48 | the rows after a write are the old ids and the written ones, and no others |
| `Findings.RowsNeverChange` | packages/audit-core/src/cstack_audit_core/storage.py:21-23 | no row ever changes once written, first_seen_at included |
| `Findings.EarliestFindingWins` | packages/audit-core/src/cstack_audit_core/storage.py:20-48 | the row under a new id is the first finding written under it |
| `Findings.RewritesAreNoOps` | packages/audit-core/src/cstack_audit_core/storage.py:21-23 | writing findings whose ids are all present changes nothing |
| `Findings.OneRowPerSubject` | packages/audit-core/src/cstack_audit_core/storage.py:20-48 | when ids tell subjects apart and nothing else, a fresh table holds exactly one row per subject |
| `Findings.FirstSeenSurvivesRuns` | packages/audit-core/src/cstack_audit_core/storage.py:10-49 | over any number of runs the row under an id stays the one of the run that first saw it |
| `Exclusions.RoleTemplatesForUser` | packages/audit-exclusions/src/cstack_audit_exclusions/principals.py:89-101 | the sorted list, without repetitions, of exactly the templates the user holds by membership or by assignment |
| `Exclusions.PrincipalResolver.Push` | packages/audit-exclusions/src/cstack_audit_exclusions/principals.py:51-67 | one attempt adds a principal exactly for a known user and an unseen triple of user, route and object, keeping the two collections in step |
| `Exclusions.ResolveExcludedPrincipals` | packages/audit-exclusions/src/cstack_audit_exclusions/principals.py:35-86 | the principals are the first mentions of known users in the order direct, group, role, each with the last user of that id, the policy and the templates held |
| `ExclusionFacts.ExclusionsAreExact` | packages/audit-exclusions/src/cstack_audit_exclusions/principals.py:69-86 | each triple of user, route and object appears once, and exactly the triples the policy's lists name for known users appear |
| `ExclusionFacts.RoutesComeInOrder` | packages/audit-exclusions/src/cstack_audit_exclusions/principals.py:69-86 | direct exclusions come before those through groups, and these before those through roles |
| `ExclusionFacts.ResolversAgree` | packages/audit-exclusions/src/cstack_audit_exclusions/principals.py:35-86 | a user is resolved if and only if the coverage evaluator counts them as excluded and the tenant knows them |
| `ExclusionFacts.AllUsersPolicyReachesTheRest` | packages/audit-coverage/src/cstack_audit_coverage/matrix.py:115-156 | an all-users policy covers the tenant if and only if some user is not among its resolved principals |
| `ExclusionFacts.PrivilegedSetsAgree` | packages/audit-exclusions/src/cstack_audit_exclusions/analyser.py:13-30 | the re-stated set of privileged templates equals the one of the coverage package |
| `ExclusionFacts.PrivilegedMeansAdmin` | packages/audit-exclusions/src/cstack_audit_exclusions/analyser.py:190-197 | holding a privileged role is belonging to the coverage package's segment of all admins |
| `ExclusionFacts.EnforcesMfaExactly` | packages/audit-exclusions/src/cstack_audit_exclusions/analyser.py:285-291 | what this package takes for an enforced MFA policy is what the coverage package ranks as MFA or better and asks for MFA |
| `ExclusionFacts.AdminSegmentMatchesTemplates` | packages/audit-exclusions/src/cstack_audit_exclusions/principals.py:89-101 | a user is in the all-admins segment if and only if the templates listed for them meet the privileged set |
| `ExclusionFacts.TemplateListIsDetermined` | packages/audit-exclusions/src/cstack_audit_exclusions/principals.py:101-101 | the listed templates are determined by the directory |
| `ExclusionAnalysis.HasAlternateMfaCoverage` | packages/audit-exclusions/src/cstack_audit_exclusions/analyser.py:294-317 | true exactly when another enforced all-users MFA policy does not exclude the user directly |
| `ExclusionAnalysis.CheckAdminMfaBypass` | packages/audit-exclusions/src/cstack_audit_exclusions/analyser.py:190-233 | a critical finding exactly for a holder of a privileged role excluded from an enforced MFA policy without such an alternative |
| `ExclusionAnalysis.AnalyseExclusions` | packages/audit-exclusions/src/cstack_audit_exclusions/analyser.py:51-89 | the findings of every policy in order: stale, orphan and bypass per principal, then creep above five direct exclusions and missing documentation |
| `ExclusionFacts.QuickLookIsExact` | packages/audit-exclusions/src/cstack_audit_exclusions/analyser.py:294-317 | against real coverage (some other enforced MFA policy covers the user) the quick look errs in both directions, and exactly so: it invents coverage when every policy it accepts excludes the user through a group or role and no narrower policy covers them, it misses coverage when only a policy that is not for all users gives it, and otherwise it is right |
| `ExclusionFacts.GroupExclusionsHideEachOther` | packages/audit-exclusions/src/cstack_audit_exclusions/analyser.py:299-305 | a family where it invents coverage: a user excluded by one group from both all-users MFA policies is covered by neither and reported for neither |
| `ExclusionFacts.NarrowCoverageGoesUnseen` | packages/audit-exclusions/src/cstack_audit_exclusions/analyser.py:305-317 | a family where it misses coverage: an MFA policy for the holders of a role, or one without a user condition, covers a holder and is not seen, so a privileged holder is reported although covered |
| `ExclusionFacts.BypassReportsAreExact` | packages/audit-exclusions/src/cstack_audit_exclusions/analyser.py:190-233 | bypass findings are false exactly when only a narrower policy covers the user, real bypasses stay unreported exactly when every accepted all-users policy excludes them indirectly, and the report about a user and a policy is right if and only if they are not at risk or the quick look suffices |
| `ExclusionFacts.AnalysisReportsExactly` | packages/audit-exclusions/src/cstack_audit_exclusions/analyser.py:51-233 | a stale, orphan or bypass finding about a user and a policy is reported if and only if a policy with that id excludes the user, by the coverage evaluator's own test, and the user deserves it |
| `ExclusionFacts.OneRowPerRuleUserAndPolicy` | packages/audit-exclusions/src/cstack_audit_exclusions/analyser.py:329-354 | however many routes exclude a user, writing the analysis to a fresh table leaves one row per rule, user and policy |
| `ExclusionFacts.AnalysisReportsListsExactly` | packages/audit-exclusions/src/cstack_audit_exclusions/analyser.py:83-104 | a creep or undocumented finding about a policy id is reported if and only if a policy with that id has exclusions and more than five direct ones, or no keyword in its name |
| `ExclusionFacts.FindingsAreShaped` | packages/audit-exclusions/src/cstack_audit_exclusions/analyser.py:329-354 | every finding of the analysis has the tenant, the category, the severity of its rule, and an id computed from rule and objects: a policy, or a known user and a policy |
| `ExclusionFacts.FindingsNameTheirUser` | packages/audit-exclusions/src/cstack_audit_exclusions/analyser.py:329-354 | a user finding shows the display name, else the principal name, else the id, and names the route |
| `ExclusionFacts.DocumentedInAnyCase` | packages/audit-exclusions/src/cstack_audit_exclusions/analyser.py:320-322 | a policy is documented if and only if its name spells one of the keywords somewhere, in any case |
| `ExclusionFacts.StaleIsNinetyDays` | packages/audit-exclusions/src/cstack_audit_exclusions/analyser.py:106-116 | stale exactly when no sign-in is known or the last lies ninety whole days back |
| `Exclusions.LastUserCounts` | packages/audit-exclusions/src/cstack_audit_exclusions/principals.py:47-47 | of several users with one id the last is the one looked up |
| `Tenant.DaysReachExactly` | packages/audit-coverage/src/cstack_audit_coverage/segments.py:64-76 | flooring to whole days reaches a threshold exactly when the elapsed time does |
| `LogScrubber.HeadersMakeNeedles` | apps/signalguard-api/src/signalguard_api/logging_setup.py:53-54 | every header the filter knows gives a needle of the required form |
| `LogScrubber.Find` | apps/signalguard-api/src/signalguard_api/logging_setup.py:81-82 | the first position from i on at which the needle stands, none when there is none |
| `LogScrubber.ScrubInlineKv` | apps/signalguard-api/src/signalguard_api/logging_setup.py:71-92 | the two-index scan ends and yields the scrubbed message (`Scrubbed`) |
| `LogScrubberFacts.SpacesSurvive` | apps/signalguard-api/src/signalguard_api/logging_setup.py:71-92 | the white space of the message is kept, character by character, in order |
| `LogScrubberFacts.StartsInAnyCase` | apps/signalguard-api/src/signalguard_api/logging_setup.py:71-92 | the scan takes a place for the needle if and only if its letters are those of the needle but for their case |
| `LogScrubberFacts.ValueGivesWay` | apps/signalguard-api/src/signalguard_api/logging_setup.py:71-92 | a header in any case followed by a value stays as it is spelled, the value becomes the mark, and the text from the next white space on is scrubbed by itself |
| `LogScrubberFacts.EveryHeaderIsMarked` | apps/signalguard-api/src/signalguard_api/logging_setup.py:74-76 | every needle left in the output, in any case, is followed by the mark and then by white space or the end |
| `LogScrubberFacts.HeadersInAnyCaseAreMarked` | apps/signalguard-api/src/signalguard_api/logging_setup.py:74-76 | the same for every place of the output that spells the needle in any case |
| `LogScrubberFacts.ScrubbingIsIdempotent` | apps/signalguard-api/src/signalguard_api/logging_setup.py:71-92 | scrubbing a scrubbed message changes nothing |
| `LogScrubberFacts.TokenIsCut` | apps/signalguard-api/src/signalguard_api/logging_setup.py:83-90 | a stretch without white space is kept up to its first needle and then ends in the mark; without a needle it is kept whole |
| `LogScrubberFacts.FirstEndIsFirst` | apps/signalguard-api/src/signalguard_api/logging_setup.py:81-86 | the end at which such a stretch is cut is that of the first needle in it |
| `LogScrubberFacts.SpacePasses` | apps/signalguard-api/src/signalguard_api/logging_setup.py:83-90 | leading white space is passed through and the rest scrubbed |
| `LogScrubberFacts.ScrubSplits` | apps/signalguard-api/src/signalguard_api/logging_setup.py:83-90 | text before white space and text from it on are scrubbed independently |
| `LogHeaders.FilterMessage` | apps/signalguard-api/src/signalguard_api/logging_setup.py:52-57 | the loop over the headers yields `Filtered`: every header that occurs rewrites the original message, so the last one to occur decides |
| `LogHeaders.MarkedTextStays` | apps/signalguard-api/src/signalguard_api/logging_setup.py:71-92 | a message whose headers are all marked already is left as it is |
| `LogHeaders.NoNewNeedles` | apps/signalguard-api/src/signalguard_api/logging_setup.py:71-92 | scrubbing for one header brings no other header about |
| `LogHeaders.FilterRedactsExactly` | apps/signalguard-api/src/signalguard_api/logging_setup.py:52-57 | the pass leaves every header marked, under every order of the headers, if and only if the message was so already or at most one of the headers occurs in it |
| `LogHeaders.KnownHeadersRedactedExactly` | apps/signalguard-api/src/signalguard_api/logging_setup.py:20-20 | the same for the three headers the filter knows |
| `LogHeaders.TwoValuesDefeatThePass` | apps/signalguard-api/src/signalguard_api/logging_setup.py:3-6 | a message that gives two known headers a value, the first of them any but the mark, keeps one of them under some order |
| `ShadowScoring.ShadowScore` | packages/ml-mlops/src/cstack_ml_mlops/shadow.py:31-94 | anomaly counts, agreement, alert delta with its stand-in for growth from nothing, and the first sampled disagreements in row order |
| `ShadowScoring.DifferingIsExact` | packages/ml-mlops/src/cstack_ml_mlops/shadow.py:57-69 | the disagreement list holds exactly the rows on which the predictions differ |
| `ShadowScoring.DifferingAscends` | packages/ml-mlops/src/cstack_ml_mlops/shadow.py:57-69 | and they are listed in row order |
| `ShadowScoring.CountsDifferByDisagreements` | packages/ml-mlops/src/cstack_ml_mlops/shadow.py:54-69 | for labels -1 and 1 the change in anomaly counts is at most the number of disagreeing rows and has its parity |
| `ShadowScoring.DeltaTellsDirection` | packages/ml-mlops/src/cstack_ml_mlops/shadow.py:60-66 | the delta is positive exactly for more alerts and negative exactly for fewer, grows with the challenger where the champion has any, and is 100 for twice as many and -100 for none |
| `ShadowScoring.GateOpensExactly` | packages/ml-mlops/src/cstack_ml_mlops/shadow.py:97-118 | for any limit: at least 100 rows, and 100 times the change within limit times the champion count; with a champion count of zero growth passes only from a limit of 1000 |
| `ShadowScoring.DefaultGateOpensExactly` | packages/ml-mlops/src/cstack_ml_mlops/shadow.py:97-118 | the default gate passes if and only if rows >= 100 and 5 times the change <= champion anomalies |
| `ShadowScoring.FewDisagreementsPass` | packages/ml-mlops/src/cstack_ml_mlops/shadow.py:97-118 | a challenger that differs on at most a fifth as many rows as the champion flags always passes the default gate |
| `Promotion.Predict` | packages/ml-anomaly/src/cstack_ml_anomaly/promotion.py:71-80 | the array filled in place holds each row's own model's prediction, and 1 for users without a model |
| `Promotion.AdapterFollowsOwnModel` | packages/ml-anomaly/src/cstack_ml_anomaly/promotion.py:71-80 | a user with a model of their own gets its prediction, any other that of the pooled model, and without either 1 |
| `Promotion.GateCountsWhatScoringPredicts` | packages/ml-anomaly/src/cstack_ml_anomaly/promotion.py:59-80 | the gate counts exactly the rows that scoring with the same bundle predicts anomalous |
| `Promotion.FlagsExceedGateCount` | packages/ml-anomaly/src/cstack_ml_anomaly/scoring.py:265-271 | a scored batch flags as many rows as the gate counts for the same bundle and sign-ins, plus exactly the rows that reach 0.7 without such a prediction |
| `PromptComparison.ComparePrompts` | packages/llm-eval/src/cstack_llm_eval/runner.py:218-269 | when all calls succeed the counters are the numbers of examples won by either side, tied and inconsistent; otherwise the first failure is returned |
| `PromptComparison.SwappedOutcome` | packages/llm-eval/src/cstack_llm_eval/judge.py:97-134 | swapping the two narratives of an example swaps the winner, keeps the consistency flag and succeeds alike |
| `PromptComparison.WonExactly` | packages/llm-eval/src/cstack_llm_eval/runner.py:233-248 | a side wins an example if and only if the judge, asked about its finding and the two narratives (the reference text for the reserved version), picks its narrative in both places |
| `PromptComparison.WinnersWinInBothPlaces` | packages/llm-eval/src/cstack_llm_eval/judge.py:105-134 | a side wins if and only if the judge picks it in both places; the flag is cleared exactly when the two answers name different narratives |
| `PromptComparison.SwappingExchangesWins` | packages/llm-eval/src/cstack_llm_eval/runner.py:229-269 | swapping the versions exchanges the wins and keeps ties and inconsistencies |
| `PromptComparison.CountsAddUp` | packages/llm-eval/src/cstack_llm_eval/runner.py:249-256 | wins and ties add up to the examples, and inconsistent judgements are among the ties |
| `PromptComparison.WinratesSumToOne` | packages/llm-eval/src/cstack_llm_eval/runner.py:258-259 | the two winrates sum to one on a non-empty set and to zero on an empty one |
| `PromptComparison.WinrateFavoursTheWinner` | packages/llm-eval/src/cstack_llm_eval/runner.py:258-259 | on a non-empty set the winrate of B is above one half if and only if B wins more often than A, one if and only if B wins every example, and zero if and only if A does |
| `PromptComparison.PositionBiasCancels` | packages/llm-eval/src/cstack_llm_eval/judge.py:117-126 | a judge that always picks one place yields a winrate of one half and only inconsistencies |
| `PromptComparison.SelfComparisonTies` | packages/llm-eval/src/cstack_llm_eval/judge.py:105-134 | a version compared with itself ties on every example |
| `PromptComparison.ConsistentExactlyWhenAgreeing` | packages/llm-eval/src/cstack_llm_eval/judge.py:117-126 | no inconsistency is reported if and only if the judge names the same narrative in both orders on every example |

## Left out

- SignInFeatures.OffHoursAdminBoost: the decision function of the time model and the hour recovered from the cyclical
  columns are given functions, and the environment flag is a parameter.
- NarrativeRuns.HonestBatchesBound: a batch starts after the one before has stopped, and nothing else touches budget or
  cache between them.
- NarrativeBatchTheorems.BudgetBound: speaks of recorded spend; a reply that fails validation and is retried is billed
  by the provider but not recorded by the code.
- NarrativeGenerator.NarrativeGenerator.GenerateBatch: a batch starts with every permit free, so two batches that run
  at once on one generator are not modelled; after an exception the batch does not catch, the remaining coroutines
  go on or stop taking steps as the schedule says.
- SignInScoring.ScoreBatch: the results carry no attributions, model name, model version or scoring time.
- CoverageFindings.FindingsFromCoverage: titles, summaries, hints, references and the policy ids and member count of the
  evidence are not modelled.
- ExclusionAnalysis.AnalyseExclusions: finding titles, summaries, hints, references and the non-text evidence entries
  are not modelled.
- LogScrubber.ScrubInlineKv: ASCII white space and ASCII lower-casing only, so that lower-casing keeps length.
- LogHeaders.FilterMessage: the loop over the message text only; the redaction of mappings and of attributes named like
  a header, and the formatting of message arguments, are not modelled.
- Coverage.ResolveSegmentMembers: the service-account name patterns ignore case for ASCII letters only.
- Semaphore fairness: any waiting coroutine may be admitted, which covers the first-in-first-out order of asyncio.
- The forced-regeneration path of the command line, which bypasses cache lookup and batch accounting.
- The budget field `estimated_pending`, which nothing reads, and database failures inside a step.
- The character class of the word pattern is a parameter (`wordChars`), because `\w` depends on Unicode tables.
- Distance, speed, entropy, calendar and cyclical features are one parameter (`Numerics`); the address lookup for ASNs is
  a field of the sign-in.
- SHAP attributions, the background set, model loading and aliases, and training; the pooled training history is shared
  across users, so isolation by user is stated for scoring only.
- Missing lists and empty lists of a policy are identified, as are missing and empty texts; the code treats them alike.
- Pointwise judging, rubric scores, evaluation history, and the parsing of judge answers; generation during a comparison
  is a function of finding and version.
- FastAPI routers, web front end, Graph client, LLM adapters, MLflow, migrations, API keys and the 15 audit rules:
  I/O or single existence checks, not modelled.
