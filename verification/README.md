# Verified model of the survey automation core

This project models, in Dafny, the parts of the program whose correctness rests on invariants rather than on
reading one function: the run engine, the psychometric allocation, the survey logic interpreter, the submit text
format, the proxy pool, and the allocators and shaped distributions behind the answers. Numbers that the program
keeps as floats are exact reals here; random draws, clock readings and answers given from outside are parameters.
Code that changes objects in place is modelled by classes, arrays and loops and proved against specification
functions; the theorems are about those functions, or about all runs of a protocol.

- **Run engine** (`Scheduler`, `StopPolicy`, `RunProtocol`, `RunInvariants`, `RunTheorems`, `RunHistory`): slots pass tokens
  through a scheduler, play rounds and stop. A step is one stretch of code between two suspension points, and a run
  is any sequence of enabled steps, so all interleavings are covered. Scheduling the stop and the stop taking effect
  are two different steps.
- **Psychometrics** (`CronbachAlpha`, `LatentScores`, `Quotas`, `ScoreAssignment`, `DimensionPlan`, `Orientation`):
  largest-remainder quotas, assignment by rank, Cronbach's alpha and the orientation of items.
- **Survey logic** (`SurveyLogic`, `SurveyPlan`, `SurveyTheorems`, `DisplayControls`): the static check, the pass
  that interprets jumps and visibility, and the controls derived from display conditions.
- **Submit text** (`Text`, `WireFormat`): the nested encoding, and a decoder for it.
- **Proxies** (`ProxyPool`, `ProxyProtocol`): the lease pool and the protocol by which slots and the prefetch task
  share it.
- **Answers** (`Distribution`, `RankClamp`, `AnswerRules`, `WeightedSample`, `MultiSelect`, `MultiChoice`,
  `ConfigIndex`): runtime correction and rank clamp, constrained multiple choice, and the allocation of configuration
  rows.
- `Sums`, `Sorting` and `Wrappers` hold finite sums, the stable sort and the option and result types.

`dafny verify dfyconfig.toml` checks everything.

Where the code does less than its names suggest, the theorems say what it does: a terminating jump rule without a
positive target never fires (`FirstMatchFiresIff`); quotas are indexed by score level, not by option, when an item
has a score map (`PlanKeepsQuotas`); a location entry shifts the text indices after it (`TextIndexIff`); a control
entry keeps the mode of the first condition that asks for it, so that modes survive just when such conditions agree,
as the page parser's always do (`ModesKeptIff`, `ParsedControlsInvert`); a lease is given back before its success is
recorded, which matters just when the address is leased in between (`SuccessfulStaysUnusedIff`); the pass decides on a
question before later answers are known, and outruns its plan when the question waits for one of them (`StableAtIff`);
alpha is bounded by row lengths alone just when no row is longer than the first or some row is shorter
(`AlphaAtMostOneIff`); an item mirrors just when its option count is the length of its list
(`MirrorsIffCountMatches`); releasing the fetch lock does not check who holds it, and need not (`LockStep`).

## Model

| member | source | states |
|---|---|---|
| RunTheorems.TokensAreConserved | software/core/engine/async_runtime_loop.py:303-434 | in every reachable state the ready, delayed, held and retired tokens together are exactly 0 .. workers - 1, each once |
| RunTheorems.NoTokenHeldTwice | software/core/engine/async_runtime_loop.py:303-434 | no token is in two places: no two slots hold the same one, and a held or retired one is in no queue |
| RunTheorems.NoStrandedWaiter | software/core/engine/async_runtime_loop.py:303-434 | slots waiting for a token never outnumber the tokens that are ready or delayed, in any interleaving |
| RunTheorems.OvershootIsBounded | software/core/engine/async_runtime_loop.py:354-372 | with a positive target not yet passed, the success count never passes it, and submits that returned true stay within target + workers - 1, however late the stop event is set |
| RunTheorems.OvershootIsAttained | software/core/engine/run_stop_policy.py:137-198 | the bound is tight: from every initial count below the target some run plays the earlier rounds and then lets every worker return true |
| RunTheorems.WakeUpsAreOrdered | software/core/engine/async_scheduler.py:64-84 | over a whole run, delayed tokens become ready in (ready_at, order) order and never before their time |
| RunTheorems.DelayIsHonoured | software/core/engine/async_scheduler.py:47-62 | in every reachable state, a token given back with a delay waits in the heap until the release time plus that delay |
| RunTheorems.ReachedLimitsScheduleStop | software/core/engine/run_stop_policy.py:90-135 | a target met during the run, or a failure count at its limit, has the stop scheduled, in every reachable state |
| RunTheorems.RunDrains | software/core/engine/async_runtime_loop.py:303-434 | once the stop event is set, all slots together take at most four more steps per worker |
| RunTheorems.StoppedRunProgresses | software/core/engine/async_scheduler.py:37-84 | a stopped run cannot deadlock: if no slot can step while one lives, every live slot waits for a token, and passing time and one waking pass let each of them go on |
| RunHistory.CountsAreHistory | software/core/engine/run_stop_policy.py:50-170 | over every run the failure counts are the numbers of counted faults of their kind since the last counted success, read from the steps; uncounted are an unexpected fault after the stop event, an unavailable provider and a verification demanded without a proxy. The success count is the initial one plus the counted successes |
| RunHistory.StopsHaveCauses | software/core/engine/async_runtime_loop.py:158-290 | over every run the stop is scheduled exactly when some step gave cause, and the stop event set exactly when some step set it; the causes are read from the step, the thresholds in numbers and the streaks before it |
| RunHistory.UnexpectedFaultsStop | software/core/engine/async_runtime_loop.py:405-420 | with stopping on failure, as many unexpected faults as the threshold in force, without a counted success between them, have the stop scheduled |
| RunHistory.FirstReasonIsKept | software/core/engine/run_stop_policy.py:113-135 | over every run the reason kept for its end is the first that a step gave |
| RunHistory.RoundEnds | software/core/engine/async_runtime_loop.py:311-434 | over every run a step of a round keeps its token in hand, leaves the loop for the listed reasons and no other, and has the token requeued after its rest exactly when it stays and the stop event is not set |
| RunHistory.LoopHeads | software/core/engine/async_runtime_loop.py:290-318 | the check at the loop head ends a slot exactly when it sees the stop or the target; a run that cannot be played ends its slots at once |
| RunInvariants.TokensPartitionStep | software/core/engine/async_runtime_loop.py:426-434 | every step of every slot, the waker and the engine keeps the partition of the tokens |
| RunInvariants.RetiredCoveredStep | software/core/engine/async_runtime_loop.py:303-434 | every step keeps each retired token paired with a slot that has ended or sees the stop at its next check |
| RunInvariants.OvershootStep | software/core/engine/async_round_resources.py:60-140 | every step, a gate that raises included, keeps the count of uncounted successes plus rounds in flight within the number of workers, below it once the target is met |
| RunInvariants.LimitsStep | software/core/engine/run_stop_policy.py:50-214 | every step keeps reached limits paired with a scheduled stop |
| RunInvariants.WakesOrderedStep | software/core/engine/async_scheduler.py:47-84 | every step keeps the wake-ups so far sorted and before everything still delayed |
| RunInvariants.ReachableInvariant | software/core/engine/async_engine.py:110-219 | all of these hold in every state of every run |
| Scheduler.AsyncScheduler.TryAcquire | software/core/engine/async_scheduler.py:37-45 | hands out the first ready token, reports a closed scheduler, or waits; the new state is that of the queue specification |
| Scheduler.AsyncScheduler.ReleaseToken | software/core/engine/async_scheduler.py:47-62 | takes a token back as specified: dropped, ready, or delayed with the next order number |
| Scheduler.AsyncScheduler.WakeDelayed | software/core/engine/async_scheduler.py:64-84 | the popping loop moves the maximal due prefix of the heap, in order, and reports whether it moved anything |
| Scheduler.AsyncScheduler.CloseScheduler | software/core/engine/async_scheduler.py:86-94 | closes and keeps everything else |
| Scheduler.WakeMovesExactlyDue | software/core/engine/async_scheduler.py:64-84 | a delayed token is moved if and only if its time has come |
| Scheduler.ReleaseKeepsOrder | software/core/engine/async_scheduler.py:47-62 | a release keeps the heap sorted by (ready_at, order) with fresh order numbers |
| Scheduler.WakeKeepsOrder | software/core/engine/async_scheduler.py:64-84 | a waking pass keeps the heap order |
| Scheduler.ReleaseAccounts | software/core/engine/async_scheduler.py:47-62 | a release adds exactly the requeued token, and nothing to a closed scheduler |
| Scheduler.WakeAccounts | software/core/engine/async_scheduler.py:64-84 | waking neither loses nor doubles a token |
| Scheduler.AcquireAccounts | software/core/engine/async_scheduler.py:37-45 | acquiring removes exactly the token handed out |
| StopPolicy.RunStopPolicy.RecordFailure | software/core/engine/run_stop_policy.py:50-135 | counts the failure by its kind and stops as the threshold in force demands; the whole new state is given |
| StopPolicy.RunStopPolicy.RecordSuccess | software/core/engine/run_stop_policy.py:137-198 | counts a success while there is room, resets the failure counts and asks to stop at the target; the whole new state is given |
| StopPolicy.RunStopPolicy.TriggerTargetReachedStop | software/core/engine/run_stop_policy.py:200-214 | marks the target as reached once and signals the stop |
| StopPolicy.SuccessRespectsTarget | software/core/engine/run_stop_policy.py:151-170 | counting never passes a positive target; stopping is asked for exactly when the target is met afterwards |
| StopPolicy.StopsAtThreshold | software/core/engine/run_stop_policy.py:37-135 | the n-th failure in a row stops the run exactly when thresholds are enabled, or the call forces it, and n has reached the one in force |
| CronbachAlpha.ComputeAlpha | software/core/psychometrics/utils.py:138-160 | the accumulating loop computes the coefficient, zero for degenerate input, and the index error of a short row |
| CronbachAlpha.AlphaAtMostOne | software/core/psychometrics/utils.py:99-106 | on every rectangular matrix with at least two columns alpha is at most one, and is one exactly when the totals vary and all columns move in parallel |
| CronbachAlpha.AlphaValue | software/core/psychometrics/utils.py:138-160 | the value of alpha on every rectangular matrix: zero when all totals are equal, otherwise k - 1 times the spread of the totals, times what alpha lacks to one, is k times the spread within the centred rows |
| CronbachAlpha.VarianceGap | software/core/psychometrics/utils.py:138-160 | k times the sum of the column variances exceeds the variance of the totals by exactly the spread within the centred rows |
| CronbachAlpha.AlphaReflects | software/core/psychometrics/utils.py:138-160 | replacing every column j by c_j - x leaves alpha unchanged |
| CronbachAlpha.AlphaAtMostOneIff | software/core/psychometrics/utils.py:145-160 | for given row lengths, at least two rows and a first one of at least two, alpha is at most one on every matrix exactly when no row is longer than the first, or some row is shorter, which leaves no alpha but zero |
| LatentScores.ComputeCorrelation | software/core/psychometrics/utils.py:109-130 | the accumulating loop computes the quotient of co-moment and root, zero when it is undefined |
| LatentScores.CorrelationIsBounded | software/core/psychometrics/utils.py:109-130 | a correlation lies between -1 and 1, for any root function |
| LatentScores.CorrelationValue | software/core/psychometrics/utils.py:109-130 | what a correlation is, from plain sums without means: zero unless both lists vary, otherwise its square times both moments is the square of the co-moment, whose sign it has |
| LatentScores.CorrelationShifts | software/core/psychometrics/utils.py:109-130 | adding a constant to either list changes nothing |
| LatentScores.SelfCorrelation | software/core/psychometrics/utils.py:109-130 | a list that varies correlates fully with itself |
| LatentScores.ProductsBounded | software/core/psychometrics/utils.py:120-130 | the Cauchy-Schwarz inequality behind that bound |
| LatentScores.ZToCategory | software/core/psychometrics/utils.py:87-96 | the search loop finds an option between whose cuts the value lies, for any cuts |
| LatentScores.BinsAreOrdered | software/core/psychometrics/utils.py:87-96 | with rising cuts that option is unique, and a higher value never lies in a lower one |
| LatentScores.RhoBringsAlphaAboutIff | software/core/psychometrics/psychometric.py:38-50 | the computed item correlation brings the target alpha about exactly when it needs no clamping; the denominator is never the problem |
| Quotas.NormalizeProbabilityList | software/core/psychometrics/orientation.py:13-29 | the cleaning loop and division compute the normalised list, equal shares when nothing is positive |
| Quotas.NormalizedIsDistribution | software/core/psychometrics/orientation.py:13-29 | normalised shares add up to one, keep the order of the cleaned weights and, unless all are zero, their support |
| Quotas.NormalizedIsProportional | software/core/psychometrics/orientation.py:13-29 | shares stand to each other as the given positive values; all others get nothing, unless none is positive and all shares are equal |
| Quotas.SharesAreUnique | software/core/psychometrics/orientation.py:13-29 | no other list has these properties |
| Quotas.BuildIntegerQuotas | software/core/psychometrics/joint_optimizer.py:335-359 | floors, ranking by remainder and bumping the first ones compute the quotas |
| Quotas.LeftoverRange | software/core/psychometrics/joint_optimizer.py:345-358 | what is left after flooring is at least zero and less than the number of options, so the ranking never runs out |
| Quotas.QuotasApportion | software/core/psychometrics/joint_optimizer.py:335-359 | quotas add up to exactly the sample count, each is the floor of its target or one more, and a larger share never gets the smaller quota |
| Quotas.WholeTargetsAreMet | software/core/psychometrics/joint_optimizer.py:335-359 | an option whose target is a whole number gets just that; share zero gets no sample |
| Quotas.QuotasAreOptimal | software/core/psychometrics/joint_optimizer.py:335-359 | no other integer split of the samples lies closer to the exact targets in squared distance |
| ScoreAssignment.AssignChoicesFromScores | software/core/psychometrics/joint_optimizer.py:362-376 | ladder, ranking and placing compute the assignment, also for quotas that do not fit the sample count |
| ScoreAssignment.AssignmentUsesLevels | software/core/psychometrics/joint_optimizer.py:362-376 | the levels handed out are exactly the fitted ladder of quotas |
| ScoreAssignment.QuotasSurvive | software/core/psychometrics/joint_optimizer.py:362-376 | quotas that add up to the sample count survive: level c goes to exactly quotas[c] samples |
| ScoreAssignment.HigherScoreHigherLevel | software/core/psychometrics/joint_optimizer.py:362-376 | for any quotas, a strictly higher score never gets a lower level |
| ScoreAssignment.ChoiceIndexForScore | software/core/psychometrics/joint_optimizer.py:105-118 | finds the first option mapped to a score, else the score itself, clamped into range |
| ScoreAssignment.ClampIsNearest | software/core/psychometrics/joint_optimizer.py:105-118 | clamping gives the nearest option in range |
| ScoreAssignment.OrdinalMappingIff | software/core/psychometrics/ordinal_options.py:181-185 | the sorted-is-0..n-1 test accepts exactly the permutations |
| ScoreAssignment.ScoreChoiceInverse | software/core/psychometrics/psychometric.py:89-116 | score to option and option to score undo each other, without a map and with an accepted one |
| ScoreAssignment.ChoiceCounts | software/core/psychometrics/joint_optimizer.py:466-471 | an option is chosen as often as its score level was assigned |
| DimensionPlan.EvaluateDimensionPlan | software/core/psychometrics/joint_optimizer.py:442-473 | one evaluation fills the response matrix and the choices of every item and judges it by alpha |
| DimensionPlan.PlanKeepsQuotas | software/core/psychometrics/joint_optimizer.py:454-471 | whatever the draws, option c of an item is chosen for exactly quotas[c] samples, or quotas[score_by_choice_index[c]] with a score map: quotas are indexed by level |
| DimensionPlan.PlanAlphaAtMostOne | software/core/psychometrics/joint_optimizer.py:442-473 | the alpha of a plan over at least two items exists and is at most one |
| DimensionPlan.NoiselessResponsesRise | software/core/psychometrics/joint_optimizer.py:455-471 | without noise, responses rise with the trait on every item, reversed or not |
| DimensionPlan.ResponseIs | software/core/psychometrics/joint_optimizer.py:467-471 | responses run from one to the option count, and both ways of scoring a level add up to one more than it |
| DimensionPlan.ScoresAreTraitAndNoise | software/core/psychometrics/joint_optimizer.py:455-464 | reversing an item changes the sign of the trait in its scores and nothing else; noise enters with its level and jitter with 0.03 |
| Orientation.InferDimensionOrientation | software/core/psychometrics/orientation.py:132-180 | the accumulating loop computes strengths, anchor, ambiguity and reversed keys |
| Orientation.AnchorIsHeavier | software/core/psychometrics/orientation.py:132-180 | the anchor is the side to which the items lean more in sum; exactly when the verdict is ambiguous, in numbers; otherwise exactly the items leaning to the lighter side are reversed |
| Orientation.MirrorSymmetry | software/core/psychometrics/orientation.py:118-180 | reversing every item swaps the strengths and flips the anchor, and leaves its strength, the ambiguity and the reversed keys as they are |
| Orientation.ItemMirrors | software/core/psychometrics/orientation.py:82-130 | reversing an item flips its direction and keeps its skew |
| Orientation.BiasMirrors | software/core/psychometrics/orientation.py:32-52 | left and right bias targets are mirror images of each other |
| Orientation.BiasIsShares | software/core/psychometrics/orientation.py:32-52 | from three options on, a bias to one side gives shares by the eighth power of the distance from the other end, a bias to the centre by the cube of the distance from the nearer end |
| Orientation.BiasOfTwo | software/core/psychometrics/orientation.py:32-42 | of two options the favoured one gets three quarters |
| Orientation.MirrorsIffCountMatches | software/core/psychometrics/orientation.py:63-95 | among the items with n weights and a given option count, every direction flips with the mirror exactly when the two numbers agree: longer and shorter lists alike hold an item that does not |
| SurveyLogic.AcceptedIff | software/providers/http_logic.py:69-121 | the static check accepts exactly the surveys whose questions with logic are parsed completely enough, depend on earlier and control later numbers, and jump forward within the survey |
| SurveyLogic.RejectedAtFirst | software/providers/http_logic.py:69-121 | a rejected survey is rejected for the first ordered question that does not fit; the reason names it and says what is wrong with it |
| SurveyLogic.OrderedIs | software/providers/http_logic.py:34-38 | ordering keeps exactly the questions with positive numbers, by page and then by number |
| SurveyLogic.VisibleIff | software/providers/http_logic.py:124-190 | when a question is shown, over option indices: every usable condition has an alternative of its source and mode whose source is answered, "selected" finding one of its options chosen, or naming none, and "not_selected" naming some and finding none chosen; without usable conditions, when it has no display flag |
| SurveyLogic.OrderedTwice | software/providers/http_logic.py:34-38 | ordering is idempotent, so the check sees the list that the pass walks over |
| SurveyLogic.OrderedPositive | software/providers/http_logic.py:34-38 | the ordered questions have positive numbers and are sorted by page and number |
| SurveyLogic.ResolveJumpTarget | software/providers/http_logic.py:192-220 | the loop over the rules finds the deciding rule and its target |
| SurveyLogic.DecidingRuleDecides | software/providers/http_logic.py:192-220 | the deciding rule is the first live rule naming a chosen option, or, when there is none, the first live unconditional one; and only that |
| SurveyLogic.FirstMatchFiresIff | software/providers/http_logic.py:199-219 | in an accepted survey the first rule naming a chosen option is acted on, except exactly when it terminates without a positive jumpto |
| SurveyLogic.TerminationWithoutTargetIsIgnored | software/providers/http_logic.py:206-207 | for every jumpto of zero or less, such as the -1 that a page marks the end with, an accepted survey whose chosen terminating rule never fires |
| SurveyPlan.BuildPlan | software/providers/http_logic.py:223-277 | the single pass with its pending jump target computes the recursive meaning of the survey, errors included |
| SurveyTheorems.CourseIsTheCoherentOne | software/providers/http_logic.py:240-277 | a course is computed if and only if it is coherent: answered and hidden by visibility so far, jumped over exactly under a jump, ended exactly by a terminating or out-of-range jump |
| SurveyTheorems.StableWithoutLateSource | software/providers/http_logic.py:163-190 | in any survey and any course, a question whose conditions name no number of a later question, nor its own if an earlier question shares it, is answered exactly when it is visible under all answers of the finished plan |
| SurveyTheorems.AcceptedHasNoLateSource | software/providers/http_logic.py:69-121 | in an accepted survey whose pages follow its numbers and whose flags announce its conditions, no question waits for such a number |
| SurveyTheorems.VisibilityIsStable | software/providers/http_logic.py:163-190 | so in such a survey every question reached is answered exactly when it is visible under the answers of the finished plan |
| SurveyTheorems.LateAnswerOutruns | software/providers/http_logic.py:240-279 | take any course that reaches a question and answers a later one it waits for, all else it waits for being met: some other answer there makes the pass hide a question that its own plan makes visible |
| SurveyTheorems.StableAtIff | software/providers/http_logic.py:240-279 | a question waiting only for a later one, and satisfiable by it, is stable exactly when no course that reaches it answers that later one |
| SurveyTheorems.LateSourceOutruns | software/providers/http_logic.py:240-279 | when no jump can come in between and the later question is always shown, it is not stable |
| SurveyTheorems.PageOrderMatters | software/providers/http_logic.py:34-38 | every question on an earlier page that waits for a smaller number on a later page makes, with it, an accepted survey that is not stable |
| SurveyTheorems.FlagsMatter | software/providers/http_logic.py:74-79 | every question that waits for a larger number without a flag makes, with it, an accepted survey in number order that is not stable |
| SurveyTheorems.PlanPartitionsSurvey | software/providers/http_logic.py:234-277 | for distinct numbers, answered and skipped questions are disjoint, each in survey order, and together the first n questions: all, unless the answer to the n-th ended the survey |
| SurveyTheorems.JumpSkipsExactlyIff | software/providers/http_logic.py:245-249 | a jump skips exactly the following questions numbered below its target if and only if none of them stands behind one numbered at least as high |
| DisplayControls.AttachDisplayConditionMetadata | wjx/provider/html_parser_rules.py:307-386 | the nested loops over the records attach, sort and flag the controls in place, as specified |
| DisplayControls.AddCondition | wjx/provider/html_parser_rules.py:326-374 | one condition adds its entry to the first record with its source number, unless it is empty or listed |
| DisplayControls.NormalizeIndices | wjx/provider/html_parser_rules.py:343-353 | keeps the nonnegative indices, each at its first occurrence |
| DisplayControls.ControlsInvertConditions | wjx/provider/html_parser_rules.py:318-374 | a record lists (target, indices) exactly when it did before or a question with that number has a condition with these normalised indices on it |
| DisplayControls.ControlsAreSortedAndDistinct | wjx/provider/html_parser_rules.py:376-386 | controls end up sorted and without duplicates, and the flag says exactly whether there are any |
| DisplayControls.EntriesAscend | wjx/provider/html_parser_rules.py:376-386 | the entries ascend by target and then lexically by option indices |
| DisplayControls.ControlCheckFollows | software/providers/http_logic.py:80-106 | with no controls to begin with, accepted display conditions give accepted controls, except exactly when a record without a positive number carries a condition that reaches a question |
| DisplayControls.ControlIsFirstMade | wjx/provider/html_parser_rules.py:334-374 | a record carries an entry, mode included, exactly when it did before, or it had none for that target and these indices and the first of all conditions asking for one has that mode |
| DisplayControls.ModesKeptIff | wjx/provider/html_parser_rules.py:356-374 | with no controls to begin with, every condition that reaches a record is found there with its mode exactly when no two conditions of equally numbered questions ask for the same indices of the same source in different modes |
| DisplayControls.ExtractDisplayConditions | wjx/provider/html_parser_rules.py:265-305 | the loop over the read parts of a relation text makes the conditions as specified |
| DisplayControls.ParsedDenote | wjx/provider/html_parser_rules.py:265-305 | these are, each once, the conditions that some part with a positive source and an option stands for |
| DisplayControls.ParsedControlsInvert | wjx/provider/html_parser_rules.py:307-374 | for conditions that the page parser made, the controls are their exact inverse, mode included |
| WireFormat.EscapeSubmitText | wjx/provider/http_runtime.py:180-186 | strip and six replacements in turn amount to one simultaneous substitution |
| WireFormat.ReplacementsAreSimultaneous | wjx/provider/http_runtime.py:66-73 | no replacement produces what a later one looks for |
| WireFormat.EscapedIsClean | wjx/provider/http_runtime.py:180-186 | escaped text holds no delimiter and is its own escape |
| Text.StripDropsSpace | wjx/provider/http_runtime.py:180-186 | stripping drops white space at both ends and nothing else |
| WireFormat.FormatSelectedIndices | wjx/provider/http_runtime.py:196-209 | the table of fills and the loop compute the joined options, the last nonempty fill winning |
| WireFormat.SubmitDataFromActions | wjx/provider/http_runtime.py:248-276 | the loop over the sorted numbers computes the submit text, or the error when nothing is left |
| WireFormat.SubmissionRoundTrip | wjx/provider/http_runtime.py:248-276 | splitting by "}" and "$" gives back exactly the entries, in order |
| WireFormat.SubmissionCovers | wjx/provider/http_runtime.py:254-273 | the entries ascend by number: one for every positive number answered or skipped whose text is not empty |
| WireFormat.AnswersSurvive | wjx/provider/http_runtime.py:212-230 | every action that answers something is recovered from the submit text by the separators of its kind |
| WireFormat.MarkersSurvive | wjx/provider/http_runtime.py:233-276 | every skipped number without an action has an entry, and any entry for it is the marker of its type: a row number and "-3" for each matrix row, "-3" for each option of an ordering, the skip phrase for texts, "-3" otherwise and without metadata |
| WireFormat.ChoiceRoundTrip | wjx/provider/http_runtime.py:196-209 | options come back in order with their fills, up to the fixed substitutions |
| WireFormat.TextRoundTrip | wjx/provider/http_runtime.py:218-220 | typed texts come back up to the fixed substitutions |
| WireFormat.MatrixRoundTrip | wjx/provider/http_runtime.py:221-225 | matrix answers come back with their rows |
| WireFormat.OrderRoundTrip | wjx/provider/http_runtime.py:228-229 | orders come back |
| WireFormat.AnswerEmptyIff | wjx/provider/http_runtime.py:212-230 | exactly when an answer carries nothing and is left out |
| ProxyPool.ProxyLedger.Purge | software/network/session_policy.py:122-161 | the purge keeps the sound poolable leases, one per address, and returns their addresses |
| ProxyPool.ProxyLedger.PopAvailable | software/network/session_policy.py:164-187 | hands out the first lease that is sound and not blocked, and drops what stands before it |
| ProxyPool.ProxyLedger.MergeFetched | software/network/session_policy.py:190-233 | the loop over a fetched batch selects and pools as specified |
| ProxyPool.ProxyLedger.MarkInUse | software/core/task/proxy_state.py:53-58 | records the lease under its slot |
| ProxyPool.ProxyLedger.ReleaseInUse | software/core/task/proxy_state.py:263-271 | forgets the lease of a slot and returns it |
| ProxyPool.ProxyLedger.MarkSuccessful | software/core/task/proxy_state.py:179-189 | records the address and says whether it is new |
| ProxyPool.ProxyLedger.MarkInCooldown | software/core/task/proxy_state.py:103-121 | no cooldown gets shorter and every other one stays; the address ends with one of at least the time asked for, which is that time or the one it had, none counting as time zero |
| ProxyPool.ProxyLedger.DiscardUnresponsive | software/network/session_policy.py:479-499 | drops every lease of the address from the pool |
| ProxyPool.Kept | software/network/session_policy.py:131-161 | what a purge keeps: distinct addresses, only sound poolable leases, and the address of every such lease |
| ProxyPool.MergeAllSafe | software/network/session_policy.py:190-233 | a merge keeps the pool free of duplicates, lets nothing blocked in, and selects nothing blocked or pooled |
| ProxyPool.MergeTakesIn | software/network/session_policy.py:190-233 | a merge that selects has the first new lease of the batch, and every poolable lease of it that may serve is pooled or selected, up to its address |
| ProxyPool.PopFindsIff | software/network/session_policy.py:164-187 | a pop comes back empty-handed exactly when no lease left by the purge lasts, has cooled down and is neither in use nor recorded |
| ProxyProtocol.LeasesAreExclusive | software/network/session_policy.py:355-420 | over every run, two slots never send through the same address, and the in-use map says who holds what |
| ProxyProtocol.LeaseIsUntaken | software/network/session_policy.py:65-68 | no step leases an address then in use or already recorded as successful |
| ProxyProtocol.SuccessfulNeverLeasedAgain | software/network/session_policy.py:164-233 | over every run, an address recorded as successful is never leased afterwards |
| ProxyProtocol.SuccessesAreHistory | software/core/task/proxy_state.py:179-189 | over every run the recorded addresses are those given at the start and those whose check succeeded |
| ProxyProtocol.OneFetchAtATime | software/core/engine/async_engine.py:147-186 | at most one fetch is outstanding, among all slots and the prefetch task, and whoever fetches holds the lock |
| ProxyProtocol.PoolStaysDistinct | software/network/session_policy.py:122-246 | a step that purges leaves one lease per address in the pool, and every other step keeps it so |
| ProxyProtocol.PutAside | software/network/session_policy.py:479-499 | an address put aside leaves the pool with all its leases and nothing else does; a cooldown makes it wait for at least the time asked for |
| ProxyProtocol.ExclusiveStep | software/network/session_policy.py:249-260 | every step keeps the leases exclusive |
| ProxyProtocol.LockStep | software/network/session_policy.py:341-413 | every step keeps the lock with whoever is past it, although releasing does not ask who that is |
| ProxyProtocol.SuccessfulStaysUnusedIff | wjx/provider/http_runtime.py:555-565 | over every run: in every state nobody sends, whichever pending check succeeds, through an address recorded as successful, exactly when no step of the run leases an address that some slot is then checking |
| ProxyProtocol.CheckedLeaseUnsettles | wjx/provider/http_runtime.py:555-565 | a step that leases an address under check leads, with the success of that check, to an address in use that is recorded as successful |
| ProxyProtocol.ReleasedLeaseReturns | wjx/provider/http_runtime.py:555-565 | such a step occurs: for every address there is a run in which a fetch brings it to another slot between its release and the record of its success |
| Distribution.ResolveDistributionProbabilities | software/core/questions/distribution.py:80-123 | the adjusting loop computes the corrected distribution, and the target itself without history |
| Distribution.CorrectedIsDistribution | software/core/questions/distribution.py:80-123 | correction gives a distribution with exactly the support of the target |
| Distribution.CorrectionIsBounded | software/core/questions/distribution.py:109-123 | each ratio of corrected share to target lies between min/max and max/min of the factor limits |
| Distribution.ProfileBounds | software/core/questions/distribution.py:62-104 | in numbers: a factor of 2.2 / 0.45 either way normally, 1.6 under the reliability profile |
| Distribution.CorrectionOdds | software/core/questions/distribution.py:100-123 | shares stand to each other as the targets times the exponentials of how far each option lags behind, with gain, warm-up and limits of both profiles in numbers |
| Distribution.LaggingOptionsAreFavoured | software/core/questions/distribution.py:114-118 | for a monotone exponential, the further an option lags behind its target the more it is favoured |
| Distribution.MetTargetsRest | software/core/questions/distribution.py:109-123 | a target that has been met exactly is left alone |
| Distribution.TargetIsDistribution | software/core/questions/utils.py:372-398 | a fitted and normalised ratio list is a distribution |
| Distribution.TargetIsProportional | software/core/questions/utils.py:372-398 | every option gets its share of what is configured |
| RankClamp.BuildRankGroups | software/core/questions/strict_ratio.py:110-121 | the buckets, heaviest first, are the positions of each positive weight in ascending order |
| RankClamp.EnforceReferenceRankOrder | software/core/questions/strict_ratio.py:124-152 | clamping group by group under a running floor computes, for each option, the least of its own value and of all values ranked strictly above, over the total |
| RankClamp.ClampIsGreatest | software/core/questions/strict_ratio.py:134-147 | the clamp is the greatest list below the given one that follows the reference order |
| RankClamp.EnforcedFollowsOrder | software/core/questions/strict_ratio.py:124-152 | a strictly higher reference weight never ends up below a lower one |
| RankClamp.EnforcingIsIdempotent | software/core/questions/strict_ratio.py:124-152 | enforcing the order twice is enforcing it once |
| RankClamp.CorrectThenClamp | wjx/provider/answering_builders.py:98-107 | a list corrected as a target and then clamped by the list itself gives a distribution with the support of the list, or positive throughout when the list has none, and in its order |
| AnswerRules.PickLatestTriggered | software/core/questions/consistency.py:231-241 | the loop keeps the last rule that applies |
| AnswerRules.LatestIsLast | software/core/questions/consistency.py:231-241 | the picked rule is the last in the list that applies; none is picked exactly when none applies |
| AnswerRules.AppliesIff | software/core/questions/consistency.py:206-241 | when a rule applies, over option indices: it looks back at an answered question, where one of its options was chosen in "selected" mode, or none in "not_selected" mode |
| AnswerRules.GetMultipleRuleConstraint | software/core/questions/consistency.py:309-335 | the constraint of the latest triggered rule |
| AnswerRules.ConstraintIsOneSided | software/core/questions/consistency.py:309-335 | a constraint demands, or forbids, exactly the options in range that the rule names, and never both |
| AnswerRules.RuleTakesEffectIff | software/core/questions/consistency.py:248-281 | a rule silences exactly the options it does not permit, if it names one in range and permits one of positive weight; otherwise it changes nothing |
| MultiSelect.NormalizeSelectedIndices | tencent/provider/answering_rules.py:6-18 | filters, removes repetitions and sorts |
| MultiSelect.NormalFacts | tencent/provider/answering_rules.py:6-18 | the result is strictly ascending and holds exactly the members in range |
| MultiSelect.ApplyMultipleConstraints | tencent/provider/answering_rules.py:21-58 | the loops for required, trimming and filling compute the constrained selection |
| MultiSelect.ConstrainedIsWithinLimits | tencent/provider/answering_rules.py:21-58 | the selection is sorted, in range, holds nothing blocked that is not required, keeps everything wanted when it fits, and has exactly the size that limits and unblocked options allow |
| MultiSelect.RequiredComeFirst | tencent/provider/answering_rules.py:34-48 | required options are all there when they fit; when they do not, the selection is the first of them |
| MultiSelect.ConstrainedPrefers | tencent/provider/answering_rules.py:34-58 | options beyond those wanted come in only to reach the lower limit, preferred ones first and each group from the lowest; wanted ones are dropped from the end of those not required |
| WeightedSample.WeightedSampleWithoutReplacement | software/core/questions/strict_ratio.py:70-107 | the drawing loop computes the sample |
| WeightedSample.SampleIsExact | software/core/questions/strict_ratio.py:92-107 | the sample has exactly the requested size, as far as there are tickets, and no index twice |
| WeightedSample.PickIff | software/core/questions/strict_ratio.py:98-105 | a pivot picks exactly the position whose slice of the total it falls into |
| WeightedSample.TicketsFacts | software/core/questions/strict_ratio.py:79-87 | exactly the indices of positive weight take part |
| WeightedSample.SampleDrawsFromTheRest | software/core/questions/strict_ratio.py:88-107 | the j-th index is drawn by the j-th draw, in proportion to the weights, from what the earlier draws have left |
| WeightedSample.TicketsCarryWeights | software/core/questions/strict_ratio.py:79-87 | a ticket carries the weight given for its index |
| MultiChoice.BuildMultipleAction | tencent/provider/answering_builders.py:300-462 | the builder selects by one of its three paths under the constraint of the latest rule, or gives no answer |
| MultiChoice.LimitsInForce | tencent/provider/answering_builders.py:316-321 | the limits given hold as far as they fit, none given means one option at least and all at most, and the upper limit wins |
| MultiChoice.SelectionsAreValid | tencent/provider/answering_builders.py:364-462 | whatever the rules and draws, an answer is sorted, in range and limits, holds nothing forbidden, all that is demanded as far as it fits, and reaches the lower limit when enough options are permitted |
| MultiChoice.StrictIsExact | tencent/provider/answering_builders.py:411-432 | the strict-ratio path returns exactly the planned total: the required options and options of positive weight |
| MultiChoice.StrictPlanIs | tencent/provider/answering_builders.py:411-432 | which options the plan holds and with which weights; the optional part is the summed percentages over a hundred, rounded down, or up when the draw is below the fraction, unless the limits leave no room |
| MultiChoice.MaskIsFollowed | tencent/provider/answering_builders.py:434-462 | a masked draft is followed: what mask and rules ask for is there when it fits, and nothing else when it is enough |
| MultiChoice.SampleIsFollowed | tencent/provider/answering_builders.py:364-388 | so is a uniform draft |
| MultiChoice.WeightedNeverEmpty | tencent/provider/answering_builders.py:451-461 | the masked path never comes out empty while there is anything to select, so its last resort is never needed |
| ConfigIndex.BuildMatrixRows | software/core/questions/normalization.py:238-261 | appends exactly one row per matrix row, carrying the last given row onwards |
| ConfigIndex.MatrixRowsAreProportional | software/core/questions/normalization.py:217-261 | every row of a matrix question gives each option its share of the numbers in the raw row: its own, the last one given beyond the list, or the one given for all; missing numbers count as one |
| ConfigIndex.KindsSharing | software/core/questions/normalization.py:138-373 | which kinds of questions share their arrays, and which have none |
| ConfigIndex.ConfigTarget.AddEntry | software/core/questions/normalization.py:136-373 | one entry extends the arrays of its table, its counter and the index map as specified |
| ConfigIndex.ConfigTarget.Configure | software/core/questions/normalization.py:100-373 | the pass over all entries builds arrays and index map as specified, or stops at a rejected entry |
| ConfigIndex.IndexAddressesEntry | software/core/questions/normalization.py:154-304 | for distinct numbers, an index other than a text's addresses exactly what its entry appended, in every parallel array |
| ConfigIndex.TextIndexIff | software/core/questions/normalization.py:305-366 | a text index lags behind by the location entries before it, so it is right exactly when there are none |
| ConfigIndex.TextIndexAddressesEntry | software/core/questions/normalization.py:305-373 | with no location entry before it, a text index addresses its values in all eight arrays |
| ConfigIndex.MatrixBlocksCover | software/core/questions/normalization.py:201-261 | matrix blocks are disjoint and cover the matrix weights: every row belongs to exactly one |
| ConfigIndex.UnnumberedByPosition | software/core/questions/normalization.py:136-137 | entries without numbers are found under their position, counted from one |
| ConfigIndex.LocationShiftsTexts | software/core/questions/normalization.py:306-318 | a location entry before a text sends the text to the location's values |

## Left out

- Network sessions, headers, signatures, response classification, page and HTML parsing: foreign library behaviour. Records are taken as parsed; numbers that cannot be read are 0, as their readers assume.
- AI generation, persona boosts and keyword boosts: their results enter as given weights and texts.
- Floating point: rounding, NaN and infinities. `CronbachAlpha.ComputeAlpha`, `Distribution.ResolveDistributionProbabilities` and the quotas are exact-real versions; exponential, square root and normal quantile are arbitrary functions with the properties their theorems ask for.
- Joint-sample and reverse-fill bookkeeping of the execution state: its source is not part of this model. In `RunProtocol` the outcome of these calls is arbitrary.
- The search over noise levels and the choice of the best plan: it picks among evaluations of the kind proved about here.
- Sampling of the remaining plan builders (`generate_psycho_answer` and the dimension plans built on it): easy members once `z_to_category` is known.
- `_extract_display_conditions_from_html`: the splitting of page text by regular expressions; `DisplayControls` starts from the numbers read out of each part.
- Timeouts of `asyncio.wait_for` around the fetch lock: a timed-out wait is a step that does not happen. The size of a proxy request is reduced to whether there is one.
- RunTheorems.RunDrains: bounds the steps of slots, not their duration; that a stopped run also goes on is `StoppedRunProgresses`.
- RunTheorems.DelayIsHonoured: is about one release; that no delayed token moves early over a run is `WakeUpsAreOrdered`.
- Scheduler.AsyncScheduler.TryAcquire: is one pass of the waiting loop; waiting itself is the step `TakeToken` not being enabled. The heap is kept as a sorted sequence.
- ProxyPool.ProxyLedger.Purge: reads the clock once for the whole pass, the program once per lease.
- ProxyPool.ProxyLedger.PopAvailable: reads the clock once for purging and once for scanning, the program once per lease.
- ProxyPool.ProxyLedger.MergeFetched: reads the clock once for the whole pass, the program once per lease.
- ProxyPool.ProxyLedger.MarkInUse: slots are numbered, so that an empty slot label, which the program ignores, does not occur.
- ConfigIndex.ConfigTarget.Configure: says nothing about the arrays after a rejected entry, which the program leaves half filled; which entries are rejected, and the content of rows other than matrix rows, is given.
- MultiChoice.BuildMultipleAction: the mask is the outcome of its retries, and its number of attempts is not counted; option fill texts are left out.
- WireFormat.AnswersSurvive: recovers the last action for a number, since an earlier one is not submitted; the text of a slider value is given.
- SurveyPlan.BuildPlan: answers are given by position, which covers every way of building them, since each question is asked at most once.
- Orientation.MirrorSymmetry: is stated for items whose option count is the length of their list; by `MirrorsIffCountMatches` no other pair of numbers would do.
- SurveyTheorems.StableAtIff: is about a question whose conditions all name one later question; with further conditions `LateAnswerOutruns` asks for those to be met before.
- Settings, logging, user interface, updater and release tools: plumbing.
