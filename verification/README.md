# Verification of the API security gateway

This project models the stateful and arithmetic cores of a split-plane API security gateway and proves what they promise. The decision
engine (Python) learns a baseline per endpoint, scores evidence, clusters addresses into campaigns and stages policies; the data plane
(Go) detects, enforces and guards responses. Every module is one file; the properties of whole runs have modules of their own.
`dafny verify dfyconfig.toml` checks everything.

## How it is modelled

- Objects that the source changes in place are classes with the same fields (`BaselineSummary`, `UnionFind`, `BruteForceDetector`,
  `HeldResponse`, `Guard`, `MemoryLifecycleRepository`, `AdaptiveController`, `WindowConsumer`, `CampaignRepository`, `PolicyWriter`,
  `Store`, `Reflex`, `ObjectEnumerationDetector`, `RedisLimiter`). Each method states its whole new state as a function of the old one, and the laws are
  lemmas about that function, over one step and over all runs.
- Loops of the source are loops here. Where Go ranges over a map the order is left open, and where an eviction may choose among equally
  old entries every choice is a step.
- Python floats and Go float64 are reals; `round` is rounding to even. Times are numbers, and the clock is an argument. Text is ASCII
  where it is upper-cased or trimmed. The JSON library, address ranges and the network appear as parameters.
- The circuit breaker is a machine over single atomic steps, so its laws hold in every interleaving of calls.

## What the proofs found

- A minimum that rounds below itself can make the decider and the writer disagree: `AgreementExact.RoundingConditionIsExact` gives the
  exact condition and `AgreementExact.OffGridMinimumDisagrees` an input. The other disagreement is the behavioural throttle of an endpoint
  whose method is blank: `Agreement.WriterVerdict` and `AgreementExact.BlankMethodIsRefused`.
- More evidence can weaken the answer in one case, when the first row replaces an authorised behavioural throttle
  (`RiskLaws.BehaviouralMonotoneExactly`).
- `cycle` expires policies once at its start and stages later, so a policy can run out in between: `LifecycleRuns.SecondActiveExactly`.
  A staged monitor row hides a live policy: `LifecycleRuns.MonitorRowHidesActive`. `LifecycleRuns.TwoActiveExactly` is the exact condition
  for both.
- A standing block is stored under a spelling that is not on the ladder, so the simulator does not see it as stronger:
  `Simulation.StandingPolicyKept`. It even lets a block that it softens itself replace a standing one by a throttle.
- A login window that grows can make the detector undercount: `BruteForceFold.GrowingWindowUndercounts`. While nothing is evicted the log
  alone says when: `BruteForceFold.TableIsFold` and `BruteForceFold.ExactWithoutEviction`.
- The eviction of login clients counts expired streaks, so with a full table a sweep can change who is evicted and what is reported later:
  `BruteForceEviction.SweepExactly` says when, `BruteForceRuns.CleanupChangesEvictions` shows it.
- A login that was still being answered when the caps were lowered is recorded under the old ones, and the table may exceed the caps in
  force: `BruteForceLog.CapsKeptExactly` says when, `BruteForceRuns.StaleSettingsExceedTheCaps` shows it.
- A method made of white space gives a key that is not found again under itself: `Baseline.CanonicalKeyIsStable`.
- A policy scoped by only a method or only a route is kept where no full request looks: `PolicyScan.LookupExactly`.
- A comment in `campaigns/repository.py` says that behaviour is consulted when no address is shared. The code consults it whenever the
  overlap is below 0.4, and the model follows the code: `Campaigns.BehaviourDespiteSharedAddress`.
- `telemetry/route.go` says that clashing templates match the same requests. A literal `*` clashes with a wildcard and does not:
  `RouteLaws.StarIsMistaken`. Equal numbers of literals fall back to configuration order: `RouteLaws.OrderMattersOnlyInTies`.

## Model

| member | source | states |
|---|---|---|
| `Statistics.MedianRobust` | decision-engine/iasg/adaptive/baseline.py:95-98 | If fewer than half of a list lie outside an interval, its median lies inside, whatever the outliers are |
| `Statistics.MadRobust` | decision-engine/iasg/adaptive/baseline.py:98-100 | Under the same condition the median of the absolute deviations is at most the length of the interval |
| `Statistics.HalfCanMoveTheMedian` | decision-engine/iasg/adaptive/baseline.py:95-98 | The bound is sharp: with half of the samples outside, the median can leave the interval |
| `Baseline.PoisoningResistance` | decision-engine/iasg/adaptive/baseline.py:94-108 | A minority of retained samples, whatever their values, cannot move the median out of [low, high], the MAD above high - low, or the proposal out of those two numbers |
| `Baseline.ProposalBounds` | decision-engine/iasg/adaptive/baseline.py:101-108 | For a median in [low, high] and a MAD up to high - low, the proposal lies between the clamped least integers at or above low + multiplier * minimum MAD and high + multiplier * max(high - low, minimum MAD) |
| `Baseline.ProposalExactly` | decision-engine/iasg/adaptive/baseline.py:101-104 | The proposal is the number within the limits nearest to the least integer n with n >= median + multiplier * max(MAD, minimum MAD) |
| `Baseline.ThresholdExactly` | decision-engine/iasg/adaptive/baseline.py:101-139 | A trusted observation sets that threshold if and only if it is the first, makes the row ready, or differs by the hysteresis ratio after the cooldown; otherwise threshold, time and version stay |
| `Baseline.ThresholdNeverPoisoned` | decision-engine/iasg/adaptive/baseline.py:94-118 | Over a whole run: once the samples are always in majority inside an interval, every threshold ever set lies within reach of that interval |
| `Baseline.RetainedSamples` | decision-engine/iasg/adaptive/baseline.py:94-97 | Over a whole run the retained samples are exactly the last rolling_windows trusted rates |
| `Baseline.RunInvariant` | decision-engine/iasg/adaptive/baseline.py:94-118 | Every reachable row: counts match the samples, the statistics are those of the samples, and a set threshold lies within its limits |
| `Baseline.ReadinessNeverReverts` | decision-engine/iasg/adaptive/baseline.py:109-118 | Once ready, a row stays ready |
| `Baseline.ChangeRate` | decision-engine/iasg/adaptive/baseline.py:110-139 | After time T a row has changed its threshold at most 2 + T/cooldown times |
| `Baseline.CanonicalKeyIsStable` | decision-engine/iasg/adaptive/baseline.py:20-26 | A stored key is found again under the key it was asked for if and only if the method is missing or holds something besides ASCII white space, as str.strip reads it |
| `Baseline.KeyExactly` | decision-engine/iasg/adaptive/baseline.py:20-26 | A key is the trimmed upper-case method, GET when missing, and the route before its query, or no route unless it starts with a slash |
| `Baseline.BaselineSummary.Admit` | decision-engine/iasg/adaptive/baseline.py:91-118 | Rewrites the row in place to the value that one observation determines |
| `Baseline.MemoryBaselineRepository.SaveBaseline` | decision-engine/iasg/adaptive/baseline.py:66-67 | Stores a row under its own key and changes no other |
| `Baseline.BaselineLearner.Observe` | decision-engine/iasg/adaptive/baseline.py:78-121 | One observation changes one row of the table, the one found under the key or its canonical form, to the specified value |
| `Features.LinkNeedsIdentityAndTiming` | decision-engine/iasg/correlation/cluster.py:65-76 | With the default minimum, two addresses are linked if and only if some moment of each activity lie within the window of each other and two of endpoint, tool and subnet are equal and not empty |
| `Features.TimingExactly` | decision-engine/iasg/correlation/features.py:151-159 | Timing is shared if and only if some moment of one activity and some moment of the other lie at most the window apart |
| `Features.LinkedExactly` | decision-engine/iasg/correlation/cluster.py:65-76 | The three gates link exactly the pairs that are together in time, agree on two of endpoint, tool and subnet, and share enough traits in all |
| `Features.SharedTraitsSymmetric` | decision-engine/iasg/correlation/features.py:102-117 | Shared traits do not depend on which profile comes first |
| `Clustering.LeaderIsDetermined` | decision-engine/iasg/correlation/cluster.py:20-30 | The parent pointers alone determine every leader, so compressing paths cannot change one |
| `Clustering.UnionFind.Find` | decision-engine/iasg/correlation/cluster.py:20-30 | Terminates, returns the leader, and changes parents without changing any leader |
| `Clustering.UnionFind.Union` | decision-engine/iasg/correlation/cluster.py:32-36 | Afterwards the leaders are exactly those after joining the two groups |
| `Clustering.UnionFind.Groups` | decision-engine/iasg/correlation/cluster.py:38-42 | The groups list every item once, two items together exactly when they have the same leader |
| `Clustering.MergedMatches` | decision-engine/iasg/correlation/cluster.py:32-36 | Joining two groups keeps "same leader if and only if joined by a chain of edges" when the pair becomes an edge |
| `Clustering.GroupsAreClusters` | decision-engine/iasg/correlation/cluster.py:81-87 | Groups of the final forest are the classes of the chain relation over all links |
| `Clustering.LinkPairs` | decision-engine/iasg/correlation/cluster.py:61-79 | After comparing all pairs, leaders agree exactly along chains of links, and every address has the traits of its own links |
| `Clustering.ClusterProfiles` | decision-engine/iasg/correlation/cluster.py:45-87 | The clusters partition all profiles, and two addresses share a cluster if and only if a chain of pairs that work together joins them; each cluster lists exactly the traits its linked pairs agree on |
| `Eviction.DropOldest` | gateway/internal/signals/evidence.go:102-113 | Removes exactly one entry seen longest ago, never one without a time, and nothing when there is none |
| `Eviction.Trim` | gateway/internal/signals/brute_force.go:109-116 | Ends with the newest entries, as many as the limit allows; it ends because every entry has a time |
| `BruteForce.StreakKeyInjective` | gateway/internal/signals/brute_force.go:205-208 | Different routes or names never share a key when routes hold no NUL |
| `BruteForce.RatioScoreCrosses` | gateway/internal/signals/evidence.go:148-164 | The score is 60 or more exactly when the count reaches the threshold |
| `BruteForce.RatioScoreExactly` | gateway/internal/signals/evidence.go:148-164 | Below the threshold the score is the share of 30 points, then 60, from twice the threshold 80, from five times 100 |
| `BruteForce.BruteForceDetector.Apply` | gateway/internal/signals/brute_force.go:83-118 | New settings cut both levels of the table to their caps, keeping what is newest; both loops end |
| `BruteForce.BruteForceDetector.RecordFailure` | gateway/internal/signals/brute_force.go:155-180 | The whole new table after a failure, including which client and which target may be evicted |
| `BruteForce.BruteForceDetector.RecordSuccess` | gateway/internal/signals/brute_force.go:182-203 | Clears the named target, or all targets of the route, and drops a client left with nothing |
| `BruteForce.BruteForceDetector.Metrics` | gateway/internal/signals/brute_force.go:222-283 | Reports a strongest live streak, the number of targets at the threshold, and removes only what has expired |
| `BruteForce.BruteForceDetector.Sweep` | gateway/internal/signals/brute_force.go:285-302 | Removes exactly the streaks older than the window and the clients left with none |
| `BruteForceLog.NeverOvercounts` | gateway/internal/signals/brute_force.go:155-302 | In every history of calls no stored streak exceeds the true run of failures since the last clearing success with gaps within the window |
| `BruteForceFold.TableIsFold` | gateway/internal/signals/brute_force.go:155-302 | In every history that evicts nothing, whatever the clock and the windows do, the table is exactly a fold of the log: failures and successes advance a run, and a reading of the client or a sweep forgets it once the window then in force has passed |
| `BruteForceFold.ExactWithoutEviction` | gateway/internal/signals/brute_force.go:155-302 | In every such history, at any time and for any window, the live runs are all stored with their exact lengths if and only if the fold of the log counts them as the log itself does |
| `BruteForceFold.SteadyRemembers` | gateway/internal/signals/brute_force.go:155-302 | A log whose clock does not go back and whose window does not grow forgets nothing of a live run |
| `BruteForceFold.GrowingWindowUndercounts` | gateway/internal/signals/brute_force.go:167-178 | A log that forgets: after a sweep under a shorter window, a longer one undercounts a run although nothing was evicted |
| `BruteForceLog.WithinLargestCaps` | gateway/internal/signals/brute_force.go:120-180 | In every history the numbers of clients and of targets per client stay within the largest caps in force or used for a failure since the last new settings |
| `BruteForceLog.CapsKeptExactly` | gateway/internal/signals/brute_force.go:155-180 | A failure keeps the caps in force if and only if the table has room under them, or the settings that the failure is recorded under make it |
| `BruteForceLog.CapsHoldExactly` | gateway/internal/signals/brute_force.go:83-180 | In every history the caps in force hold in all states if and only if every failure keeps them in that sense |
| `BruteForceLog.CapsAlwaysHold` | gateway/internal/signals/brute_force.go:83-180 | So when every failure is recorded under the settings in force, both numbers stay within their caps |
| `BruteForceRuns.StaleSettingsExceedTheCaps` | gateway/internal/signals/brute_force.go:120-142 | A failure recorded under settings read before they were lowered fails that condition and leaves two clients where one is allowed |
| `BruteForceFold.VerdictMatchesLog` | gateway/internal/signals/brute_force.go:222-283 | A threshold crossing is never a false alarm; while nothing is evicted it is raised exactly for what the fold of the log counts, and so exactly for a client under attack wherever the log remembers its live runs |
| `BruteForceLog.CleanupKeepsAnswers` | gateway/internal/signals/brute_force.go:222-302 | One reading or sweep changes no answer that the table gives at any later time |
| `BruteForceFold.CleanupIsInvisible` | gateway/internal/signals/brute_force.go:155-302 | When nothing is evicted with the readings and sweeps or without them, they change no live streak of a client if and only if the log with them remembers the live runs of that client |
| `BruteForceEviction.CleanupExactly` | gateway/internal/signals/brute_force.go:155-220 | A reading or sweep right before a failure leaves the permitted outcomes with the same live answers if and only if the client is known, or the table has room, or the same live clients may make room with it and without it |
| `BruteForceEviction.ReadCleans` | gateway/internal/signals/brute_force.go:222-261 | A reading of any client keeps every live streak and adds none, so that condition applies to it as to a sweep |
| `BruteForceEviction.SweepExactly` | gateway/internal/signals/brute_force.go:155-220 | For a sweep on a full table: if some client has wholly expired, all that may make room must have; if none has, those that may make room must be the same before and after it |
| `BruteForceRuns.SweepIsNotInvisible` | gateway/internal/signals/brute_force.go:155-220 | A table on which that condition fails |
| `BruteForceRuns.CleanupChangesEvictions` | gateway/internal/signals/brute_force.go:155-220 | Two histories from that table, which both exist: without the sweep every permitted eviction loses a live streak, with it every one keeps that streak |
| `Risk.Guard` | decision-engine/iasg/adaptive/risk.py:187-236 | The step-by-step rails choose the strongest permitted action no stronger than the candidate, and a throttle at most without evidence |
| `Risk.CalculateRisk` | decision-engine/iasg/adaptive/risk.py:29-164 | The loops compute the specified scores, confidence, action, rate and explanation |
| `RiskExact.ResultExactly` | decision-engine/iasg/adaptive/risk.py:29-251 | The score is the rounding of the capped sum of each component times its own weight, the components being the strongest row plus repeats, the excess over the threshold and confidence times severity; confidence, action and rate likewise |
| `RiskExact.ComponentsAlone` | decision-engine/iasg/adaptive/risk.py:60-93 | With only evidence, only an excess or only a campaign, the score is the rounding of that component times its own weight, at most 100 |
| `RiskExact.CountExactly` | decision-engine/iasg/adaptive/risk.py:43-56 | Rows with one stream identifier count once and rows without one count each |
| `RiskExact.ExplanationExactly` | decision-engine/iasg/adaptive/risk.py:116-146 | The explanation tells the excess as a fraction to four places, and whether the baseline was ready |
| `Risk.Learned` | decision-engine/iasg/adaptive/risk.py:175-184 | A learned bias moves the proposal by one rung at most, and never against its sign |
| `RiskLaws.ReputationBlind` | decision-engine/iasg/adaptive/risk.py:43-60 | Inserting reputation rows anywhere changes nothing in the result |
| `RiskLaws.MoreEvidenceNeverWeakens` | decision-engine/iasg/adaptive/risk.py:43-164 | With behavioural throttling off, appending evidence never lowers score, confidence, evidence count or action |
| `RiskLaws.BehaviouralMonotoneExactly` | decision-engine/iasg/adaptive/risk.py:43-236 | With a behavioural throttle authorised, appending evidence lowers the action if and only if it brings the first row, the ceiling allows a throttle, and the rails permit none for the new rows, although the confidence of the baseline still counts |
| `RiskLaws.WorthlessRowCancelsBehaviouralThrottle` | decision-engine/iasg/adaptive/risk.py:187-236 | That case is real: a row worth no points turns an authorised throttle into monitoring |
| `RiskLaws.ResultBounds` | decision-engine/iasg/adaptive/risk.py:29-164 | Score in 0..100, confidence in 0..1, and an action never above the configured ceiling |
| `RiskLaws.NoEvidenceNoBlock` | decision-engine/iasg/adaptive/risk.py:187-236 | Without evidence from the gateway nothing is blocked, and only authorised behaviour is throttled |
| `Rounding.MinimumSurvivesRounding3` | decision-engine/iasg/adaptive/risk.py:120-164 | Every value reaching a minimum still reaches it after rounding if and only if the minimum does not round down |
| `Simulation.Review` | decision-engine/iasg/policy/simulation.py:46-130 | The approved decisions, in order, are the specified review of each decision |
| `Simulation.ReviewNeverStrengthens` | decision-engine/iasg/policy/simulation.py:46-167 | A review drops a decision, keeps it, or cuts a stronger one to a throttle; nothing else |
| `Simulation.SharedRangeIsNeverBlocked` | decision-engine/iasg/policy/simulation.py:76-86 | A declared shared range is never more than throttled, whoever asked |
| `Simulation.StandingPolicyKept` | decision-engine/iasg/policy/simulation.py:117-141 | For every decision that is not human: a standing block is kept against it if and only if what the other checks make of it is weaker than a block and the stored spelling of the block is on the ladder |
| `Simulation.SoftenedReplacesStandingBlock` | decision-engine/iasg/policy/simulation.py:76-141 | So an adaptive block that is softened for a shared range replaces a standing adaptive block by a throttle |
| `Simulation.SoftenedWhen` | decision-engine/iasg/policy/simulation.py:76-110 | A block is cut to a throttle if and only if its address lies in a declared shared range, or the decision is not human, below 0.9 and the address has enough clients |
| `Simulation.SoftenedExactly` | decision-engine/iasg/policy/simulation.py:143-167 | A softened decision changes its action, its duration and its rate, and nothing else |
| `Writer.PolicyWriter.Write` | decision-engine/iasg/policy/writer.py:35-95 | Applies the first decisions that pass the rails, up to the budget, in order; the new store and the remaining budget are exact |
| `Writer.PolicyWriter.BeginCycle` | decision-engine/iasg/policy/writer.py:32-33 | Refills the budget |
| `Writer.PassesExactly` | decision-engine/iasg/policy/writer.py:35-164 | A decision passes if and only if it acts for some time on a public address that no allowlist covers, unless it allows, within mode, ceiling, duration, rates and the grounds of its action |
| `Writer.WrittenAreSafe` | decision-engine/iasg/policy/writer.py:35-95 | Whatever is in the store after a call was there before or is a decision of the call that may be written |
| `Writer.WrittenAreComplete` | decision-engine/iasg/policy/writer.py:35-95 | While the budget lasts, every decision that may be written has its key in the store |
| `Agreement.WriterVerdict` | decision-engine/iasg/policy/writer.py:104-149 | In automatic mode, when the minimums in use survive rounding, or survive it on every deviation from a threshold that can be learned, the re-check passes every decision but one kind: it refuses the behavioural throttle of an endpoint whose key lacks method or route, and gives that reason |
| `Agreement.DeciderAndWriterAgree` | decision-engine/iasg/policy/writer.py:104-149 | So every decision about an address or a complete endpoint passes the re-check |
| `Agreement.ReviewedDecisionsPass` | decision-engine/iasg/policy/writer.py:104-149 | So does every such decision after the simulator, softened or not |
| `Agreement.SoftenedStillPasses` | decision-engine/iasg/policy/simulation.py:143-167 | Softening a block to a throttle keeps it acceptable |
| `AgreementExact.RoundingConditionIsExact` | decision-engine/iasg/policy/writer.py:104-149 | For all guardrails: every automatic decision about an address or a complete endpoint with a learned threshold passes the re-check if and only if no confidence minimum in use rounds below itself and the least deviation that reaches the minimum, from each threshold in 1..100000, rounds to the minimum or above; and the like without a bound on thresholds |
| `AgreementExact.LearnedThresholdsExactly` | decision-engine/iasg/adaptive/baseline.py:94-118 | The thresholds of ready baselines, over all valid configurations and all histories, are exactly 1 to 100000 |
| `AgreementExact.HarmlessRounding` | decision-engine/iasg/policy/writer.py:133-134 | A deviation minimum just below 2.00015 rounds below itself and yet refuses no deviation from a learned threshold |
| `Agreement.GridMinimumsSurvive` | decision-engine/iasg/policy/writer.py:133-148 | Minimums with at most three and four decimals are their own roundings |
| `AgreementExact.ShippedSettingsAgree` | decision-engine/iasg/adaptive/config.py:36-94 | The shipped settings are valid and meet the condition |
| `AgreementExact.OffGridMinimumDisagrees` | decision-engine/iasg/policy/writer.py:137-139 | With the throttle minimum 0.5504 and all else as shipped, the engine throttles for one proven injection at confidence 0.5504, and the re-check refuses it at 0.55 |
| `AgreementExact.TwoInjectionsAreBlocked` | decision-engine/iasg/adaptive/risk.py:43-236 | With the shipped settings, two proven injections and a campaign of confidence 0.9 and high severity score 77 and are blocked for a time |
| `AgreementExact.BlankMethodIsRefused` | decision-engine/iasg/policy/writer.py:126-136 | A burst on an endpoint whose method is blank is throttled by the engine and refused by the re-check, under any guardrails that use behavioural throttling |
| `Agreement.KeysOfRequestsAreScoped` | decision-engine/iasg/adaptive/baseline.py:20-26 | A key made from a method that is missing or not only white space names a method and a route, as the re-check wants |
| `Agreement.CallsShareOneBudget` | decision-engine/iasg/policy/writer.py:32-95 | Several calls in a cycle apply exactly what one call would: the first that pass, up to one budget |
| `Observing.AdaptiveController.ObserveWindow` | decision-engine/iasg/adaptive/controller.py:62-127 | A window is assessed and scored against the baselines as they were, its proposal is staged in the lifecycle, and only then is it learned from; assessments, rows, audit and baselines are exact |
| `Observing.AdaptiveController.Observe` | decision-engine/iasg/adaptive/controller.py:62-127 | A list of windows, each scored against what the ones before it taught and staged in what they left; the final assessment of every address is exact |
| `Observing.BurstTeachesItsEndpointNothing` | decision-engine/iasg/adaptive/controller.py:111-126 | A burst that justifies a behavioural throttle changes nothing that was learned of its own endpoint |
| `Observing.OnlyTrustedWindowsTeach` | decision-engine/iasg/adaptive/controller.py:62-127 | Over a run of windows, every sample of every baseline is the rate that some earlier window counted for that very endpoint, where the window was safe, its address not blocklisted, and it was not the burst that had the endpoint throttled |
| `ObservingExact.RowsAreRuns` | decision-engine/iasg/adaptive/controller.py:62-127 | After any run of windows the table has a row for exactly the endpoints that some window counted, and each row is what the observations of that endpoint, in order, make of an empty one |
| `ObservingExact.TeachesExactly` | decision-engine/iasg/adaptive/controller.py:111-126 | A count is trusted if and only if its window is safe, its address is not blocklisted or is allowlisted too, and it is not the burst for which its endpoint is throttled |
| `ObservingExact.WindowProposalExactly` | decision-engine/iasg/adaptive/controller.py:84-109 | A window leads to a proposal if and only if its address is on a list or its most deviant endpoint bursts; a burst throttles that endpoint as far as the ceiling allows, scored by the weighted excess |
| `ObservingExact.DecisionExactly` | decision-engine/iasg/adaptive/controller.py:189-248 | The ranges of the operator decide for the whole address with human precedence and the longest duration for an allow; every other decision is adaptive, in the configured mode, for its endpoint |
| `Observing.MostDeviant` | decision-engine/iasg/adaptive/controller.py:38-44 | The context is the first endpoint that no other exceeds in deviation, then in rate |
| `Observing.CampaignEndpoint` | decision-engine/iasg/adaptive/controller.py:152-187 | The attacked endpoint is the one named by the evidence, under its most used method, the first by name among equals |
| `ObservingExact.MethodsExactly` | decision-engine/iasg/adaptive/controller.py:173-181 | Every method is counted once for each row that names the route and this method in either case |
| `Lifecycle.MemoryLifecycleRepository.ExpireDue` | decision-engine/iasg/adaptive/lifecycle.py:53-75 | Exactly the active rows past their end become expired, and the audit gains one entry for each |
| `Lifecycle.MemoryLifecycleRepository.FindLast` | decision-engine/iasg/adaptive/lifecycle.py:66-68 | A row of the scope updated last, if there is any |
| `Lifecycle.Manager.Stage` | decision-engine/iasg/adaptive/lifecycle.py:82-162 | Stages, holds back or supersedes exactly as specified from the last row of the scope; a staged row and its audit entry are all that is added |
| `Lifecycle.Manager.Activated` | decision-engine/iasg/adaptive/lifecycle.py:167-175 | Activates the decision and retires the row it supersedes, with their audit entries; no other row changes |
| `LifecycleRuns.RunsStaySafe` | decision-engine/iasg/adaptive/lifecycle.py:66-175 | Along every run with expiry before staging, each scope has at most one active row and it is the latest; repeated actions are a lifetime apart; replacing a live policy waits for the cooldown |
| `LifecycleRuns.StepKeepsInvariant` | decision-engine/iasg/adaptive/lifecycle.py:82-175 | One such cycle keeps all of that |
| `LifecycleRuns.StagedExactly` | decision-engine/iasg/adaptive/lifecycle.py:104-147 | A decision is staged if and only if its scope has no answer yet: no live policy or open recommendation of the same action, and no live one of another action within the cooldown unless it overrides |
| `LifecycleRuns.ModesDecide` | decision-engine/iasg/adaptive/lifecycle.py:82-103 | Overrides are approved and enforced in every mode, manual mode asks, monitor mode recommends, automatic mode enforces, and a decision to monitor is enforced by nobody |
| `LifecycleRuns.TwoActiveExactly` | decision-engine/iasg/adaptive/lifecycle.py:66-175 | Without the expiry, for any rows with one active row per scope: activating a staged proposal leaves a second active row if and only if the row read back as the last is not the active one, or is the active one and has the action of the proposal |
| `LifecycleRuns.SecondActiveExactly` | decision-engine/iasg/adaptive/lifecycle.py:109-162 | Where the active row is the last of its scope, that is exactly a standing policy of the same action that has run out unnoticed |
| `LifecycleRuns.MonitorRowHidesActive` | decision-engine/iasg/adaptive/lifecycle.py:104-162 | A staged monitor row hides a live policy, and the next proposal becomes active beside it |
| `Json.ReplaceExactly` | gateway/internal/ownership/guard.go:307-322 | A replacement succeeds if and only if the path leads through objects, and the value is then found there |
| `Json.ReplaceElsewhere` | gateway/internal/ownership/guard.go:307-322 | It changes nothing that any path beside it leads to |
| `HeldResponses.HeldResponse.Write` | gateway/internal/ownership/held_response.go:45-66 | One write: held, streamed, discarded or overflowing, with the client and the buffer as specified |
| `HeldResponses.HeldResponse.WriteHeader` | gateway/internal/ownership/held_response.go:35-43 | Only the first status counts, and only a success is held |
| `HeldResponses.HeldResponse.Release` | gateway/internal/ownership/held_response.go:101-109 | Sends the held response unchanged, once |
| `HeldResponses.HeldBack` | gateway/internal/ownership/held_response.go:35-66 | With a success and deny mode, whatever is written, no byte reaches the client; what is held depends on the concatenated body alone |
| `HeldResponses.ErrorsStream` | gateway/internal/ownership/held_response.go:35-50 | Errors and redirects reach the client as they are: status, body and the headers set before the status |
| `HeldResponses.OverflowStreams` | gateway/internal/ownership/held_response.go:55-63 | When unverifiable answers are allowed, a body over the limit reaches the client complete and in order, with the headers set until then |
| `OwnershipGuard.FilterItems` | gateway/internal/ownership/guard.go:243-258 | Splits a list into kept items and a count of the others, with the first foreign owner |
| `OwnershipGuard.Decide` | gateway/internal/ownership/guard.go:182-283 | For every held response: what the client receives, and all that is remembered, be it a refusal, an allowed read that takes back the last evidence, or nothing |
| `OwnershipGuard.Middleware` | gateway/internal/ownership/guard.go:141-180 | The whole protected read, from missing tokens and bypassing callers to the decision: the answer, and the tables of the guard after it |
| `OwnershipGuard.Guard.Record` | gateway/internal/ownership/guard.go:347-387 | The evidence recorded for one refusal, and the bounded tables after it |
| `OwnershipGuard.ScoreExactly` | gateway/internal/ownership/guard.go:347-377 | Foreign objects and forged tokens are worth 80 points, and 100 when at least two came within the five minutes before; a cut list is worth 30, the rest nothing |
| `OwnershipGuard.Guard.RecentViolations` | gateway/internal/ownership/guard.go:389-411 | The times within the window, at most as many as are tracked |
| `OwnershipGuard.Guard.DropOldest` | gateway/internal/ownership/guard.go:413-431 | Evicts the expired clients, or else one seen longest ago |
| `OwnershipGuard.KeptAreOwn` | gateway/internal/ownership/guard.go:243-258 | The kept items are exactly those that name the caller, or nobody where that is let through, in their order |
| `OwnershipGuard.Containment` | gateway/internal/ownership/guard.go:182-283 | In deny mode, whatever the backend does, a successful answer is an empty body, the object or list of the caller unchanged, the list cut to its own items with all else unchanged, or a refusal |
| `OwnershipExact.ObjectReadExactly` | gateway/internal/ownership/guard.go:194-235 | In both modes: an object reaches the client if and only if it is within the limit, uncompressed, readable and owned by the caller; one owned by somebody else is refused; what cannot be checked is refused or passed on whole, by mode |
| `OwnershipExact.ListReadExactly` | gateway/internal/ownership/guard.go:236-283 | In both modes: a readable list reaches the client unchanged if it may read every item; otherwise it gets the list cut to what it may read, with status and the other headers, unless that cannot be encoded |
| `OwnershipExact.ListJudgedExactly` | gateway/internal/ownership/guard.go:236-264 | A list the caller may read clears it; otherwise the number of hidden items and the first owner they name are recorded |
| `OwnershipExact.ErrorsPassOn` | gateway/internal/ownership/guard.go:194-197 | An answer that is no success passes as it is and leaves no trace |
| `OwnershipExact.EmptyPassesOn` | gateway/internal/ownership/guard.go:198-201 | So does a success without a body |
| `OwnershipExact.RefusalRemembered` | gateway/internal/ownership/guard.go:347-431 | A refusal is remembered for its own client; every other client is remembered as before or, when a new client meets a full table, forgotten altogether |
| `OwnershipGuard.SplittingIsInvisible` | gateway/internal/ownership/held_response.go:45-66 | Two backends that write the same body in different pieces get the same answer |
| `Health.FullyObservedExactly` | decision-engine/iasg/anomaly/health.py:25-44 | A minute is fully observed if and only if it has sixty heartbeats with consecutive numbers, none twice, and nothing lost between the first and the last, in whatever order they came |
| `Windows.WindowConsumer.Consume` | decision-engine/iasg/adaptive/windows.py:159-192 | The records known after a batch of entries |
| `Windows.WindowConsumer.Completed` | decision-engine/iasg/adaptive/windows.py:53-129 | Nothing while behind; otherwise one window per address and closed minute, and exactly the records and heartbeats of closed minutes forgotten |
| `Windows.CloseWindow` | decision-engine/iasg/adaptive/windows.py:84-116 | The summary of one group: route counts, fired signals and trust |
| `WindowRuns.TrustedExactly` | decision-engine/iasg/adaptive/windows.py:93-115 | A window is safe to learn from if and only if each of its requests is completed, allowed and signal-free and its minute has sixty contiguous loss-free heartbeats |
| `WindowRuns.OneWindowEach` | decision-engine/iasg/adaptive/windows.py:76-116 | Every closed request is in one window and in no other |
| `WindowRuns.CountsExactly` | decision-engine/iasg/adaptive/windows.py:84-92 | A window counts, for every method and template, exactly the requests of its address and minute with that method and template |
| `WindowRuns.ClosingConserves` | decision-engine/iasg/adaptive/windows.py:76-128 | The counts of all windows of a closing add up to the requests it removes |
| `WindowRuns.RequestsAreConserved` | decision-engine/iasg/adaptive/windows.py:53-192 | Over a run, every time a request is heard of anew ends in exactly one counting, unless it still waits |
| `WindowRuns.CompletionKeepsWindow` | decision-engine/iasg/adaptive/windows.py:184-187 | A completion never moves a request to another address, minute or route than its arrival gave |
| `WindowRuns.CountedOnce` | decision-engine/iasg/adaptive/windows.py:53-192 | A request of which nothing is read after it was counted is counted exactly once, or still waits |
| `WindowRuns.ClosedExactly` | decision-engine/iasg/adaptive/windows.py:53-82 | Over every run, a closing counts a request if and only if the streams were read to their end, it is pending, and the end of its minute plus the grace is not after now |
| `WindowRuns.ReadInTimeCountedOnce` | decision-engine/iasg/adaptive/windows.py:53-192 | A request all of whose entries are read before any closing at or after that time is counted exactly once, or still waits |
| `WindowRuns.TrustNeedsFreshBeats` | decision-engine/iasg/adaptive/windows.py:123-128 | A later window of a closed minute is trusted only after sixty new heartbeats for that minute |
| `Campaigns.MatchExactly` | decision-engine/iasg/campaigns/repository.py:235-268 | Which known campaign a candidate continues: the first with the greatest overlap of at least 0.4, else a best one of the same operation, else none |
| `Campaigns.OverlapExactly` | decision-engine/iasg/campaigns/repository.py:304-307 | The overlap suffices if and only if an address is shared and two fifths of all addresses are |
| `Campaigns.BehaviourExactly` | decision-engine/iasg/campaigns/repository.py:271-301 | The weighted score reaches 0.7 if and only if endpoint, tool and detector agree and the sightings are close enough; the subnet neither suffices nor is needed |
| `Campaigns.BehaviourDespiteSharedAddress` | decision-engine/iasg/campaigns/repository.py:249-266 | Behaviour is consulted although an address is shared, when the overlap is too small |
| `Campaigns.FindMatch` | decision-engine/iasg/campaigns/repository.py:235-268 | The two loops find that match |
| `Campaigns.Absorb` | decision-engine/iasg/campaigns/repository.py:310-347 | The campaign after a new sighting |
| `Campaigns.StagesAccumulate` | decision-engine/iasg/campaigns/repository.py:317-324 | Stages keep their order, and the new ones come after |
| `Campaigns.ConfidenceRises` | decision-engine/iasg/campaigns/repository.py:339-342 | Confidence never exceeds 1, never falls, and rises while it is at most 0.95 |
| `Campaigns.ContinuingGrows` | decision-engine/iasg/campaigns/repository.py:124-163 | Being continued shrinks nothing about a campaign |
| `Campaigns.BehaviourAfter` | decision-engine/iasg/campaigns/repository.py:310-347 | A continued campaign is compared by the last signature that was not empty, from when it was last seen |
| `Campaigns.ContinuingCounts` | decision-engine/iasg/campaigns/repository.py:124-163 | A return from other addresses is a rotation; coming back after a throttle or block once contained or from elsewhere is persistence; containment makes the alert due again |
| `Campaigns.KindExactly` | decision-engine/iasg/campaigns/repository.py:317-331 | A campaign becomes multi-stage as soon as two of its stages differ |
| `Campaigns.MergeConserves` | decision-engine/iasg/campaigns/repository.py:114-168 | A merge conserves the number of events and loses no address |
| `Campaigns.MergeGrows` | decision-engine/iasg/campaigns/repository.py:114-168 | Numbers stay distinct and no campaign loses confidence, severity, stages or addresses |
| `Campaigns.NumberedInOrder` | decision-engine/iasg/campaigns/repository.py:114-168 | New campaigns are numbered one after another, and known ones keep their numbers |
| `CampaignMemory.CampaignRepository.Merge` | decision-engine/iasg/campaigns/repository.py:108-168 | The store and the counter after a merge, for some order in which the store listed its campaigns, and the campaigns returned as they finally stand |
| `CampaignMemory.CampaignRepository.Review` | decision-engine/iasg/campaigns/repository.py:170-202 | One more quiet cycle for exactly the active campaigns that were not seen |
| `CampaignMemory.CampaignRepository.ApplyConfig` | decision-engine/iasg/campaigns/repository.py:70-79 | The continuation window is at least two hours and at least four of the longest policies, and no longer than the greater of the two |
| `CampaignMemory.PauseContinues` | decision-engine/iasg/campaigns/repository.py:70-79 | So an operation that was silent for that long continues a campaign when it returns |
| `CampaignMemory.MergeTouches` | decision-engine/iasg/campaigns/repository.py:117-168 | Only returned campaigns change, and every new one is returned |
| `CampaignRuns.ContainedExactly` | decision-engine/iasg/campaigns/repository.py:108-202 | Across all cycles quiet_cycles is the smaller of 3 and the unseen reviews since the last merge, and a campaign is contained if and only if it is 3 |
| `CampaignRuns.NothingIsLost` | decision-engine/iasg/campaigns/repository.py:108-202 | Over a whole run the memory holds exactly the events and the addresses ever reported |
| `CampaignRuns.MemoryOnlyGrows` | decision-engine/iasg/campaigns/repository.py:108-202 | Once remembered a campaign stays remembered and loses no confidence, severity, stage or address |
| `PolicyStore.CollectAt` | gateway/internal/policy/store.go:362-411 | The index after one batch, and the number of keys refused for having no expiry |
| `PolicyStore.Store.Refresh` | gateway/internal/policy/store.go:266-321 | A complete scan replaces the snapshot by the index of everything taken and counts the keys refused; a failed one leaves no snapshot |
| `PolicyStore.TakenExpires` | gateway/internal/policy/store.go:375-396 | Everything taken ends, after the moment it was read |
| `PolicyStore.VerdictExactly` | gateway/internal/policy/store.go:362-411 | A policy is taken if and only if it parses and its key has an expiry, and then until that; what it leaves out is filled in; a key without an expiry is refused |
| `PolicyScan.IndexKeyInjective` | gateway/internal/policy/store.go:218-223 | Two scopes have the same key if and only if address, upper-cased method and route agree, for NUL-free addresses and methods |
| `PolicyScan.LookupExactly` | gateway/internal/policy/store.go:171-223 | For all lists of policies that name a target, and every request: the two map reads pick what a scan of all standing live policies picks if and only if every candidate with half an endpoint is overruled by one for the whole address or endpoint, or the request lacks a half itself |
| `PolicyScan.LookupPicksLikeScan` | gateway/internal/policy/store.go:171-223 | So without half endpoints they always do: the higher origin, then the endpoint |
| `PolicyScan.PriorityExactly` | gateway/internal/policy/store.go:208-216 | The priorities order policies by origin: a person, then what a person approved, then everything else |
| `PolicyScan.ScanPicksOne` | gateway/internal/policy/store.go:171-191 | The scan picks one decision at most |
| `PolicyScan.HalfScopesAreMissed` | gateway/internal/policy/store.go:218-223 | And a single policy is found by every full request if and only if its scope is whole |
| `PolicyScan.AnswersAreTimeBounded` | gateway/internal/policy/store.go:193-203 | No answer outlives its key or the permitted age of the snapshot |
| `PolicyScan.RefreshedStoreScans` | gateway/internal/policy/store.go:171-321 | After a complete refresh the store itself answers as the scan of everything it took would, and never beyond the age of its snapshot |
| `Chain.Pick` | gateway/internal/policy/chain.go:43-62 | The first human decision, else the first of the most severe |
| `Chain.OnlyWorseOrHumanReplaces` | gateway/internal/policy/chain.go:43-76 | Only a human decision or an action at least as severe takes the place of an answer, and a human one always does |
| `Chain.OnePrevails` | gateway/internal/policy/chain.go:43-62 | The answers determine the decision |
| `Chain.SeverityExactly` | gateway/internal/policy/chain.go:66-76 | Escalation is above every spelling of a block, that above a throttle, and that above everything else |
| `Reflex.BuildTunables` | gateway/internal/enforcement/reflex.go:136-174 | Settings are refused if and only if they name an advisory detector or a range that does not parse |
| `Reflex.AdvisoryIsRefused` | gateway/internal/enforcement/reflex.go:158-165 | Settings that trust one of the four advisory detectors are refused, whatever blanks surround the name |
| `Reflex.SettingsExactly` | gateway/internal/enforcement/reflex.go:136-174 | The settings in force: five minutes unless a duration is given, every name and every range without its blanks, and the default ranges when none are given |
| `Reflex.Reflex.Apply` | gateway/internal/enforcement/reflex.go:127-134 | New settings or none; blocks keep their deadlines |
| `Reflex.Reflex.Observe` | gateway/internal/enforcement/reflex.go:229-266 | Blocks for the first evidence that justifies it, unless a block is running |
| `Reflex.Reflex.Lookup` | gateway/internal/enforcement/reflex.go:269-296 | A running block, with the time it has left |
| `Reflex.Reflex.Sweep` | gateway/internal/enforcement/reflex.go:323-331 | Removes exactly the blocks that have ended |
| `ReflexRuns.SweepingIsInvisible` | gateway/internal/enforcement/reflex.go:299-331 | Over every run, sweeping changes no answer |
| `ReflexRuns.RunningDeadlineStands` | gateway/internal/enforcement/reflex.go:121-134 | Nothing moves the deadline of a block before it passes |
| `ReflexRuns.BlocksReleaseThemselves` | gateway/internal/enforcement/reflex.go:229-296 | An address is refused only within the duration that was in force when an observation of it crossed a trusted threshold |
| `ReflexRuns.CrossingBlocks` | gateway/internal/enforcement/reflex.go:229-296 | After an observation an address is refused if and only if blocking is on with some detector named, and a running block lasts or trusted crossing evidence with the minimum score came for an address that parses and is not exempt, for the duration |
| `ReflexRuns.RefusalTells` | gateway/internal/enforcement/reflex.go:283-296 | A refusal is the temporary block of the gateway itself, with the whole seconds it still lasts |
| `ReflexRuns.SweepKeepsRunning` | gateway/internal/enforcement/reflex.go:323-331 | A sweep keeps exactly the blocks that would still refuse |
| `ReflexRuns.BlockPrevails` | gateway/internal/policy/chain.go:43-76 | In the chain a running block stands unless a person decides or the engine acts at least as severely |
| `Routes.NewTable` | gateway/internal/telemetry/route.go:49-84 | A table is built if and only if every template parses, none is too long and no two clash |
| `Routes.AdmissibleExactly` | gateway/internal/telemetry/route.go:169-181 | A template is two words, the second starting with a slash, with 24 segments at most |
| `Routes.KeysClash` | gateway/internal/telemetry/route.go:65-73 | Equal keys mean equal methods and equal segments once a literal * is read as a wildcard |
| `Routes.SegmentExactly` | gateway/internal/telemetry/route.go:183-198 | A segment takes any value if and only if it is a name in braces |
| `Routes.Best` | gateway/internal/telemetry/route.go:119-145 | The first of the fitting routes with the most literals; no table and too many segments match nothing |
| `Routes.BestAt` | gateway/internal/telemetry/route.go:129-144 | The chosen route fits, no fitting route has more literals, and earlier fitting routes have fewer |
| `Routes.MatchParams` | gateway/internal/telemetry/route.go:105-117 | The template that Match reports, with the values in its wildcards |
| `RouteLaws.ParamsRebuildPath` | gateway/internal/telemetry/route.go:98-117 | Filling the matched template with the reported values gives back the path |
| `RouteLaws.FillMatches` | gateway/internal/telemetry/route.go:147-167 | Filling a template with values that are not empty gives a path it matches |
| `RouteLaws.ParamsOfFill` | gateway/internal/telemetry/route.go:105-117 | Values filled in are read back |
| `RouteLaws.OrderMattersOnlyInTies` | gateway/internal/telemetry/route.go:129-144 | No reordering of the templates changes the answer if and only if no two different best routes tie |
| `RouteLaws.SameRequestsExactly` | gateway/internal/telemetry/route.go:65-73 | Two routes match the same paths if and only if their segments are equal |
| `RouteLaws.AcceptedRoutesDiffer` | gateway/internal/telemetry/route.go:65-73 | Two accepted templates of one method never match the same set of paths |
| `RouteLaws.StarIsMistaken` | gateway/internal/telemetry/route.go:200-213 | The check is stricter than that: "GET /*" and "GET /{id}" each make a table, match different paths, and make none together |
| `RouteLaws.BoundHidesNothing` | gateway/internal/telemetry/route.go:124-127 | The bound on segments hides no match of an accepted table |
| `Paths.JoinSplit` | gateway/internal/telemetry/route.go:124-124 | Joining the segments of a path gives back the path |
| `Paths.SplitJoin` | gateway/internal/telemetry/route.go:124-124 | Splitting joined slash-free segments gives back the segments |
| `ConsecutiveRun.LongestConsecutiveRun` | gateway/internal/signals/object_enumeration.go:259-282 | Exactly the length of the longest run n, n+1, ... among the numeric identifiers |
| `ConsecutiveRun.SubtractionTells` | gateway/internal/signals/object_enumeration.go:272-279 | On sorted 64-bit numbers the wrapping subtraction tells equal and adjacent numbers correctly |
| `ConsecutiveRun.SameRuns` | gateway/internal/signals/object_enumeration.go:269-281 | Neither order nor repetition of the identifiers matters |
| `ConsecutiveRun.OneLongest` | gateway/internal/signals/object_enumeration.go:259-282 | There is one such length |
| `ConsecutiveRun.NumbersExactly` | gateway/internal/signals/object_enumeration.go:260-265 | The numbers looked at are exactly those some identifier spells |
| `ConsecutiveRun.AtoiExactly` | gateway/internal/signals/object_enumeration.go:260-265 | An identifier is a number if and only if it is a sign or none and then digits, and fits in 64 bits |
| `ObjectEnumeration.ObjectEnumerationDetector.Observe` | gateway/internal/signals/object_enumeration.go:142-169 | The whole new table after a request, for any permitted eviction |
| `ObjectEnumeration.ObjectEnumerationDetector.Metrics` | gateway/internal/signals/object_enumeration.go:172-252 | Describes a trail no other beats in identifiers, then in refusals, with its longest run, score and threshold |
| `ObjectEnumeration.ObjectEnumerationDetector.Sweep` | gateway/internal/signals/object_enumeration.go:294-312 | Removes exactly expired identifiers, empty trails and idle clients |
| `ObjectExact.WalkedExactly` | gateway/internal/signals/object_enumeration.go:142-169 | After a request a trail holds what was asked for within the window and the new identifier, which is turned away if and only if as many others as allowed were |
| `ObjectExact.WithinLargestCaps` | gateway/internal/signals/object_enumeration.go:142-312 | In every history the table stays within the largest numbers of clients and identifiers that any call allowed |
| `ObjectExact.SweepExactly` | gateway/internal/signals/object_enumeration.go:294-312 | A sweep keeps exactly the clients heard of within the window with something asked for within it, and of them exactly that |
| `ObjectExact.ScoreExactly` | gateway/internal/signals/object_enumeration.go:235-252 | From the threshold on 60, 80 or 100 points, 20 more for half of the requests refused, 10 more for a run of five, and 100 at most |
| `ObjectLog.SeesOnlyTheWindow` | gateway/internal/signals/object_enumeration.go:142-200 | Whatever was evicted, capped or reconfigured, every identifier a reading sees was requested within the window, and is seen as it was last requested |
| `ObjectLog.TableIsFold` | gateway/internal/signals/object_enumeration.go:142-312 | In every history in which nothing is ever full, whatever the clock and the windows do, the trails are exactly a fold of the log |
| `ObjectLog.SeesTheWholeWindow` | gateway/internal/signals/object_enumeration.go:142-200 | Then a reading sees exactly what the log remembers within the window, and that is what was requested within it if and only if it was not forgotten along the log |
| `ObjectLog.SteadyRemembers` | gateway/internal/signals/object_enumeration.go:142-312 | A log whose clock does not go back and in which no call used a shorter window forgets nothing of the window |
| `Breaker.ProbesAreAlone` | gateway/internal/policy/redis_limiter.go:112-140 | In every interleaving of calls at most one call that saw an open circuit talks to the store, and the flag is set exactly while it does |
| `Breaker.FlagIsReleased` | gateway/internal/policy/redis_limiter.go:112-140 | The flag is never lost: some call holds it, and its own remaining steps clear it, whatever the reply |
| `Breaker.TurnedAwayForCause` | gateway/internal/policy/redis_limiter.go:112-119 | A call is turned away only while its circuit is open or another call probes, and then changes nothing |
| `Breaker.OpenForCause` | gateway/internal/policy/redis_limiter.go:112-140 | In every interleaving the circuit is closed until a call settles, and then as the last call to settle left it: closed after a reply, open for the backoff after an error |
| `Breaker.RedisLimiter.Take` | gateway/internal/policy/redis_limiter.go:101-141 | A call on its own does what its steps in the interleaving machine do |
| `Breaker.DecodeExactly` | gateway/internal/policy/redis_limiter.go:155-166 | A reply is accepted if and only if it spells a result whose wait is whole milliseconds and fits in 64 bits |
| `SqlText.NormalizeSqlText` | gateway/internal/signals/sqli_injection.go:96-112 | The scanner terminates and replaces every closed block comment by a space |
| `SqlText.FindMatches` | gateway/internal/signals/sqli_injection.go:82-91 | The patterns that occur in the text, both normalised, in order |
| `SqlText.ContainsExactly` | gateway/internal/signals/sqli_injection.go:82-91 | Containment is the equality of some stretch of the text with the pattern |
| `SqlText.NormalizingOnceIsEnough` | gateway/internal/signals/sqli_injection.go:96-112 | No closed block comment is left, and normalising again changes nothing |
| `SqlText.CommentIsSpace` | gateway/internal/signals/sqli_injection.go:93-107 | A closed comment is worth a space wherever the text before it leaves none open |
| `SqlText.CommentHidesNothing` | gateway/internal/signals/sqli_injection.go:82-112 | So no pattern matches more or less because of it |
| `SqlText.OpenCommentIsKept` | gateway/internal/signals/sqli_injection.go:93-109 | A comment that is never closed hides no text after it |
| `SqlText.CaseIsInvisible` | gateway/internal/signals/sqli_injection.go:111-111 | Case does not matter |

## Left out

- The token bucket script and its arithmetic: the limiter's store answers with an arbitrary reply or an error.
- Redis, Postgres, HTTP transport, tickers, goroutine start-up and logging; `_drain` and its batch counts, of which only "caught up or not" is kept.
- JWT parsing and signatures: the guard gets a caller or a reason why there is none.
- JSON text: decoding and encoding are parameters, and text after the first JSON value of a body, which the decoder ignores, is not modelled.
- Address and range parsing: an abstract predicate says which address lies in which range.
- Unicode case folding and blanks outside ASCII; fractions of a second in window times.
- Floating-point rounding: scores, confidences and medians are reals.
- The order of sorted outputs (members of a cluster, traits, addresses of a campaign, fired signals, supporting identifiers), except where a property is about order.
- `IPProfile.add` and the counters behind a profile's top endpoint, tool and detector: a profile is given with its tops; `common_traits` and the classification, severity and wording of fresh campaigns.
- Texts: reasons, notes, outcomes, explanations and assessments, except the explanation fields that later stages read back.
- The branch for a zero threshold at baseline.py:114, which cannot be reached because `_may_change` is already true there.
- 1xx informational statuses of a held response.
- Aliasing between a window assessment and the row of the in-memory baseline repository: an assessment holds the row as it was, as it does with the database.
- Campaigns and lifecycle rows are values inside their repositories: a reference kept elsewhere does not see a later change. `Merge` returns every campaign as it finally stands, which is what the shared references give.
- The 24-hour lifetime of campaigns in the key-value store: the memory is the durable one.
- Collisions of the digest in the writer's policy key: the key is modelled as address, method and route.
- Streams that redeliver an entry are covered as repeated entries, and a key that a scan returns twice as a repeated key.
- The dashboard, the desktop application, the vulnerable demo application, narration and the remaining detectors.
- BruteForceFold.TableIsFold: does not cover histories that evict, because what is evicted is a choice that the log does not record; there BruteForceLog.NeverOvercounts holds.
- BruteForceEviction.CleanupExactly: compares the live answers right after the failure, not those after further calls.
- ObjectLog.TableIsFold: does not cover histories in which the table or a trail is full, for the same reason; there ObjectLog.SeesOnlyTheWindow holds.
- PolicyScan.LookupExactly: does not cover policies that name no target, which are kept under the name of their key.
- LifecycleRuns.RunsStaySafe: covers automatic mode with enforced decisions and an expiry before each staging; LifecycleRuns.TwoActiveExactly says exactly what fails without the expiry.
- Breaker.RedisLimiter.Take: does not model the clamping of the burst, which only the token bucket reads.
