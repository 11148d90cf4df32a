# Decision layer of the verified model router: model and proofs

The repository routes a request up a ladder of language models: try a cheap rung, check its answer with a gate,
pay for the next rung only if the gate fails. Around that it keeps a decision layer of small stateful loops whose
comments make strong claims: tests whose error is bounded at every time, rules that use only what a live router
sees, a start rung that minimises expected cost, thresholds with a distribution-free risk bound, a spend cap that
survives crashes. This project models those loops in Dafny, keeps them as loops over fields, arrays and queues
where the source has them, ties each to a pure function of its inputs, and proves the claims about those functions
for all inputs, all runs and all adaptive environments.

Numbers are exact reals. Probability is finite and adaptive: an environment maps every history to a finite
distribution over what comes next, and the probability of an event after `n` steps is computed on that tree.

| file | what it holds |
|---|---|
| `Reals.dfy`, `Lists.dfy`, `Probability.dfy` | sums, products, counting, arithmetic-geometric mean; sorting; adaptive environments, expectation, Ville's inequality |
| `Sessions.dfy`, `EProcess.dfy` | first-pass, the stop-after-k rule, the betting test that withholds escalations |
| `CertifiedSelection.dfy`, `SelectionError.dfy`, `Pairing.dfy` | the certify/halt mixture pair, its error probabilities, and the two-queue live mode |
| `Matrix.dfy`, `StartRung.dfy`, `Prior.dfy` | measured rows, the expected-cost start rung, the cumulative prior that feeds it |
| `Auc.dfy` | the midrank AUC over an array and the pairwise AUC |
| `Conformal.dfy` | threshold calibration and the judge cascade |
| `Checkpoint.dfy`, `Spending.dfy` | resumable paid measurement with a checkpoint file and a spend cap; everything it pays for |
| `Scanner.dfy` | the two assert-statement scanners |
| `RoundRobin.dfy` | balanced sampling |
| `Fitters.dfy`, `PoolRouter.dfy` | threshold and tolerance fitting on the training half: step-gated cascade, first-eligible router, cheapest-on-average router |
| `Buckets.dfy`, `CrossFit.dfy` | quartile pass-rate predictors and two-fold cross-fitting |
| `Trajectory.dfy`, `CacheCost.dfy` | the agent retry loop with its signals; what prefix caching saves |

Where the code does not do what its own text says, the code is modelled and the exact boundary is proved:

- `stop_after` is offered as a rule a live router could follow. It is one exactly up to two rungs
  (`StopRuleIsLiveExactlyUpToTwoRungs`); on three it reads the top gate when a middle rung served.
- The two AUC functions both promise rank-sum AUC with half ties. They agree on every labelling exactly when
  scores are pairwise equal or at least 1e-12 apart (`AucsAgreeExactlyWhenSeparated`); a chain of near ties is
  moved to its lowest member by one and not by the other.
- `scripts/export-vrbench-tasks.py` promises not to mistake a comma inside a string for the separator. Its scanner
  takes a quote after an escaped backslash for an escaped quote; `SameViewExactlyWhenLiteralsEndClean` says for
  which expressions the two scanners part, `PythonRoundTripIsAboutTheText` on which texts the conversion goes wrong
  and `PythonRoundTripExactlyWhen` for which expressions.
- `measure_resumable` says a re-run skips what is already measured. Within one run nothing is bought twice exactly
  when its task ids are distinct (`NothingBoughtTwiceExactlyWhenDistinct`).
- The spend cap is said to hold across resumes. It does for what the checkpoint records; for everything paid it
  holds exactly without interruptions (`CapOnEverythingPaid`, `CapBoundsAllExactlyWithoutInterruption`): calls of a
  row that is broken off are recorded nowhere, so repeated interruption can spend past any cap
  (`InterruptionsOutspendAnyCap`).
- `eprocess_stop` says a session that turns around can reopen. It does, within a stated number of turns, unless
  nothing is bet and the bar is met from the start (`ReopensExactlyWhen`).
- The expected-cost walk and the cost-aware rule of `costaware.rs` both decide where to start. On two rungs they
  agree except at the tie and where the cut-off drops the top rung (`TwoRungRulesAgreeExactlyWhen`).
- "Longer sessions benefit more from caching" (scripts/analyze-agent-granularity.py:916) holds exactly when the
  first prompt is large enough (`RatioNeverFallsExactlyWhen`); the benefit never passes the read discount.

In the table, a row whose member is a method says that the loop computes a pure function or meets a property; the
rows after it prove what that function is worth. What an operation returns (which rung served, what was billed, how
many rows were counted) is also stated on the recorded data alone, by indices, cardinalities and sums, and the error
bounds are paired with what the rules achieve: evidence that grows, a run that finishes, a session that reopens.

## Model

| member | source | states |
|---|---|---|
| `Probability.Ville` | scripts/analyze-swe-checkpoint.py:286-288 | Ville's inequality as the script invokes it: for every adaptive finite-branching environment, every nonnegative process that never grows on average and every horizon, the probability of ever reaching a level is at most start over level |
| `Probability.ProbabilityAddsUp` | scripts/analyze-swe-checkpoint.py:286-288 | the probabilities these bounds are about: one for what is certain, additive for events that exclude each other |
| `Sessions.FirstPass` | scripts/analyze-swe-checkpoint.py:198-205 | what it returns is the verdict of one rung and the sum of the costs up to it, all gates before that rung failing and its own passing unless it is the last |
| `Sessions.ServedRungIsUnique` | scripts/analyze-swe-checkpoint.py:198-205 | the rung first-pass serves is determined by the gates |
| `Sessions.StopAfter` | scripts/analyze-swe-checkpoint.py:259-276 | every turn gets the cheap rung's verdict and cost if its cheap gate fails after k > 0 top failures in a row, and otherwise the first passing rung, else the last, at the sum of the costs up to it; the loop's state is that of the pure machine |
| `Sessions.StoppedMeansFailureRun` | scripts/analyze-swe-checkpoint.py:259-276 | a session is stopped after k > 0 if and only if the top gates of its failed-cheap turns hold k failures in a row, wherever they lie |
| `Sessions.StoppingIsAbsorbing` | scripts/analyze-swe-checkpoint.py:259-276 | once stopped, nothing that follows changes the state |
| `Sessions.ZeroIsFirstPass` | scripts/analyze-swe-checkpoint.py:259-276 | k = 0 is plain first-pass on every turn of every session |
| `Sessions.SoonerStopCostsLess` | scripts/analyze-swe-checkpoint.py:259-276 | turn by turn the cost is nondecreasing in k >= 1 and never above first-pass |
| `Sessions.TwoRungsSufficeToSee` | scripts/analyze-swe-checkpoint.py:259-276 | on ladders of one or two rungs, sessions that agree on cheap gates and on the gates of escalated turns get the same escalation decisions |
| `Sessions.ThreeRungsPeek` | scripts/analyze-swe-checkpoint.py:259-276 | on three or more rungs that fails: two sessions a live router cannot tell apart are decided differently, because the last gate is read when a middle rung served |
| `Sessions.StopRuleIsLiveExactlyUpToTwoRungs` | scripts/analyze-swe-checkpoint.py:259-276 | the rule uses only what a live router sees if and only if the ladder has at most two rungs |
| `Sessions.Total` | scripts/analyze-swe-checkpoint.py:319-321 | the flattened totals of correct turns and cost of all sessions |
| `Sessions.TotalsCount` | scripts/analyze-swe-checkpoint.py:319-321 | the totals are the number of correct outputs and the sum of their costs |
| `Sessions.OutputsFollow` | scripts/analyze-swe-checkpoint.py:319-321 | the outputs of several sessions follow one another, each session served turn by turn from a fresh state |
| `Sessions.Pick` | scripts/analyze-swe-checkpoint.py:323-331 | the pair minimum over (cost, k) is the smallest k in 1..12 that loses no correct turn, 0 if there is none |
| `EProcess.EprocessStop` | scripts/analyze-swe-checkpoint.py:279-310 | for all parameters: nothing is returned exactly when the script raises, that is at floor 1, on a failed cheap turn with delta 0, or on one met while stopped with probe interval 0; otherwise a withheld turn gets the cheap rung's verdict and cost alone, any other the first passing rung, else the last, at the sum of the costs up to it |
| `EProcess.ReplayRule` | scripts/analyze-swe-checkpoint.py:296-310 | the same loop, errors and served rungs included, over any pair of wealth factors and any bar |
| `EProcess.PyModZero` | scripts/analyze-swe-checkpoint.py:304-305 | the remainder of a negative probe interval is zero at the same turns as that of its absolute value |
| `EProcess.FairBet` | scripts/analyze-swe-checkpoint.py:294-296 | a passed top gate leaves 1 - bet of the wealth, a failed one multiplies it by 1 + lam * floor, no factor is negative, and a rate exactly at the floor is a fair bet |
| `EProcess.WealthIsSupermartingale` | scripts/analyze-swe-checkpoint.py:286-291 | under every adaptive environment in which an escalated turn rescues with conditional probability at least floor, the wealth is a nonnegative supermartingale, probes included |
| `EProcess.WrongStopProbability` | scripts/analyze-swe-checkpoint.py:289-291 | the probability that a session where escalation pays ever has an escalation withheld is at most delta, for every session length |
| `EProcess.WealthCountsEscalations` | scripts/analyze-swe-checkpoint.py:296-310 | after any session the wealth is the product of the pass factor over passes and the failure factor over failures of the escalated turns, in whatever order |
| `EProcess.ProbeAccounting` | scripts/analyze-swe-checkpoint.py:303-308 | withheld turns are exactly the skipped ones minus one for every |probe_every| of them |
| `EProcess.WithheldExactlyWhen` | scripts/analyze-swe-checkpoint.py:302-307 | a turn is withheld if and only if its cheap gate fails while wealth times delta is at least one and it is not one of every |probe_every| such turns |
| `EProcess.WithholdingSparesTheLadder` | scripts/analyze-swe-checkpoint.py:297-310 | the money law: a session pays what first-pass would less what the rungs above the cheap one would have cost on the withheld turns |
| `EProcess.SevenFailuresToStop` | scripts/analyze-swe-checkpoint.py:281-284 | with the shipped constants nothing is stopped before seven failed escalations, without a pass exactly at seven, and of the failed turns met while stopped all but every third are withheld |
| `EProcess.TurningAroundReopens` | scripts/analyze-swe-checkpoint.py:293-294 | a session that turns around reopens: if k passes of the top gate would take the wealth below the bar, then over failed cheap turns whose top gate passes at most k times the probe interval less one are withheld, however many come, and after k times the interval the session is open |
| `EProcess.ReopensExactlyWhen` | scripts/analyze-swe-checkpoint.py:293-294 | for all parameters of the guarantee: from every history some number of such turns reopens the session if and only if something is bet or delta is below one |
| `CertifiedSelection.Mixture.constructor` | scripts/sim-certified-selection-mbpp.py:56-60 | the bets are the grid divided by the worst loss and every wealth starts at one |
| `CertifiedSelection.Mixture.Step` | scripts/sim-certified-selection-mbpp.py:62-64 | one difference multiplies every wealth by one plus its bet times the signed distance to m; the wealths stay those of the differences seen |
| `CertifiedSelection.Mixture.E` | scripts/sim-certified-selection-mbpp.py:66-67 | the evidence is the mean over all grid bets of the product of their gains |
| `CertifiedSelection.Decide` | scripts/sim-certified-selection-mbpp.py:70-77 | both tests move, then certified is asked before halted; the answer is that of the pure rule on the extended stream, for every margin the tests can be built for |
| `CertifiedSelection.Paired` | scripts/sim-certified-selection-mbpp.py:80-87 | for every margin but -1 and 1, where the code divides by zero, the capped loop returns the first verdict the stream of differences gives, at its first position, undecided at the cap |
| `CertifiedSelection.DecidePair` | scripts/sim-certified-selection-mbpp.py:70-77 | a decision met after undecided differences is the verdict of every stream that goes on from there |
| `CertifiedSelection.FirstVerdictIs` | scripts/sim-certified-selection-mbpp.py:80-87 | the verdict of a stream is the one of its first deciding prefix |
| `CertifiedSelection.VerdictIsFinal` | scripts/sim-certified-selection-mbpp.py:80-87 | further data never changes a verdict or when it fell |
| `CertifiedSelection.BetsStaySolvent` | scripts/sim-certified-selection.py:63-71 | for differences in [-1, 1] and a margin on which the worst loss is positive, every grid factor stays at least 1 - g >= 0.1 |
| `CertifiedSelection.WorstDifferenceCostsTheStake` | scripts/sim-certified-selection-mbpp.py:55-64 | there are eighteen bets, and on the worst difference bet k keeps exactly 1 - 0.05(k + 1) of its wealth |
| `CertifiedSelection.EvidenceGrows` | scripts/sim-certified-selection-mbpp.py:55-67 | power: if every difference lies at least c on the test's side of m, evidence times the worst loss is at least that loss plus 0.475 times n times c, and eighteen times the evidence is at least the n-th power of any one bet's gain |
| `CertifiedSelection.DriftDecides` | scripts/sim-certified-selection-mbpp.py:70-87 | so once n times c is forty times the worst loss the verdict of that side falls, at the latest at the n-th difference, and it is the only one |
| `CertifiedSelection.PairedPower` | scripts/sim-certified-selection-mbpp.py:80-87 | on the outcomes of paired mode: a challenger that on every task is short of the incumbent by less than the margin, by at least c, is certified by the n-th task, one that is short by more is halted |
| `CertifiedSelection.EvidenceNeedsDrift` | scripts/sim-certified-selection-mbpp.py:55-77 | evidence above one requires the summed differences to lie strictly on that test's side of m: if they do not, every product of gains is at most one |
| `CertifiedSelection.NeverBothAboveOne` | scripts/sim-certified-selection-mbpp.py:55-77 | certify and halt evidence are never both above one, on any stream and for any margin |
| `CertifiedSelection.DecisionsAgreeWithTheMean` | scripts/sim-certified-selection-mbpp.py:70-77 | certified implies the observed mean is strictly below m, halted strictly above, and each verdict holds exactly when its own evidence reaches 1/ALPHA: asking certify first hides nothing |
| `SelectionError.BarProbability` | scripts/sim-certified-selection.py:60-74 | the equal-weight mean over all grid bets is a nonnegative supermartingale on the null side, so any event that needs it to reach 1/ALPHA has probability at most ALPHA |
| `SelectionError.NullIsPossible` | scripts/sim-certified-selection.py:63-67 | where the null can hold at all, the test of that side has a positive worst loss: margins outside [-1, 1] break no bound |
| `SelectionError.FalseCertification` | scripts/sim-certified-selection.py:77-92 | for any margin and any adaptive process of bounded differences with conditional mean at least m, a run ends certified with probability at most ALPHA, however long |
| `SelectionError.FalseHalt` | scripts/sim-certified-selection.py:77-92 | symmetrically for halted when the conditional mean is at most m |
| `Pairing.ArrivalPairsOnce` | scripts/sim-certified-selection-mbpp.py:96-103 | from one empty queue, an arrival forms at most one pair, of the oldest waiting outcomes, and leaves one queue empty again |
| `Pairing.Live` | scripts/sim-certified-selection-mbpp.py:90-104 | for every margin but -1 and 1, the queued loop returns the verdict of the j-th incumbent minus j-th challenger stream, at the arrival that completes the deciding pair; the queues hold exactly the unpaired outcomes |
| `Pairing.EveryArrivalIsOnOneArm` | scripts/sim-certified-selection-mbpp.py:96-99 | arrivals are conserved: every one is in exactly one arm's stream |
| `Pairing.DealtPairs` | scripts/sim-certified-selection-mbpp.py:96-101 | whatever the coin flips, the pairs are a prefix of the zipped arm streams |
| `Pairing.EveryRunIsDealt` | scripts/sim-certified-selection-mbpp.py:94-99 | every live run is dealt from its own coins and any tape that holds what the two arms produced |
| `Pairing.VerdictIgnoresTheCoins` | scripts/sim-certified-selection-mbpp.py:90-104 | two coin sequences that form equally many pairs give the same verdict |
| `Pairing.LiveErrors` | scripts/sim-certified-selection.py:77-92 | whatever sends the sessions to the arms, coins drawn in advance, outcome-dependent or even knowing the outcomes to come, false certification and false halt of the queued run keep the ALPHA bound |
| `Pairing.LivePower` | scripts/sim-certified-selection-mbpp.py:90-104 | live mode decides likewise: with n sessions on either arm and every incumbent-challenger pairing at least c on one side of m, the verdict of that side falls by the n-th pair |
| `Matrix.FirstPassFrom` | crates/firstpass-bench/src/costaware.rs:212-225 | serves one rung from start on: its verdict, the sum of the costs from start to it and their number, no gate passing before it and its own passing unless it is the last; with no rung left the last verdict, nothing paid and no rung |
| `Matrix.ServedFromIsUnique` | crates/firstpass-bench/src/costaware.rs:212-225 | which the row alone determines |
| `Matrix.PaidRungByRung` | crates/firstpass-bench/src/costaware.rs:212-225 | the bill from a rung is its cost plus, unless it passed, the bill from the next |
| `StartRung.ArgminExpectedCostPrior` | crates/firstpass-bench/src/jev_replay.rs:428-448 | the walk with the 1e-10 cut-off returns the lowest start whose walk is cheapest, 0 on an empty ladder |
| `StartRung.ArgminExpectedCost` | crates/firstpass-bench/src/prior.rs:67-98 | the second copy decides the same walk with unpriced rungs free and missing prior entries zero |
| `StartRung.MissingEntries` | crates/firstpass-bench/src/prior.rs:67-98 | a priced rung keeps its price and a known prior its value; a rung without a price is free, one without a prior never passes |
| `StartRung.CopiesAgree` | crates/firstpass-bench/src/prior.rs:67-98 | with every price and prior known the two copies of the rule decide alike |
| `StartRung.WalkApproximates` | crates/firstpass-bench/src/jev_replay.rs:432-442 | the cut-off walk is never above reach times the backward recursion price + (1 - prior) * next, and below it by at most 1e-10 times the prices above |
| `StartRung.CutoffBitesBelowOneInTenBillion` | crates/firstpass-bench/src/jev_replay.rs:437-441 | a chance of one in ten billion of reaching the top rung is still counted, half of it is not |
| `StartRung.ExpectationIsRecursion` | crates/firstpass-bench/src/costaware.rs:212-225 | the backward recursion is the mean, over all outcomes of all gates, of what first-pass from that rung pays |
| `StartRung.ChosenStartIsNearOptimal` | crates/firstpass-bench/src/jev_replay.rs:428-448 | the chosen start's expected cost is within 1e-10 times its price sum of every other start's |
| `StartRung.ChoiceMinimisesTheBill` | crates/firstpass-bench/src/jev_replay.rs:428-448 | no start has a mean first-pass bill lower than the chosen one by more than that |
| `StartRung.Serve` | crates/firstpass-bench/src/costaware.rs:139-161 | the cost-aware rule takes the top rung alone when the cheap one costs at least p times it, serves as first-pass from rung 0 otherwise, and nothing on an empty row |
| `StartRung.TwoRungRulesAgreeExactlyWhen` | crates/firstpass-bench/src/costaware.rs:145-147 | on two rungs the cost-aware rule and the walk start alike if and only if c0 differs from p * c1, with the exact exception where the cut-off forgets the top rung |
| `Prior.CumulativePass` | crates/firstpass-core/src/prior.rs:31-60 | accepts exactly nonempty nonnegative inputs with positive sum and returns the normalised running sums: clamp and forced last entry change nothing in exact arithmetic |
| `Prior.StepsAreShares` | crates/firstpass-core/src/prior.rs:31-60 | the prior rises from rung to rung by exactly that rung's share of the total, and there is none exactly without rungs, with a negative entry or with nothing to share |
| `Prior.PriorIsMonotoneAndCertain` | crates/firstpass-core/src/prior.rs:11-17 | the prior never falls up the ladder, ends at one, and consists of probabilities, which is all the start-rung theorems ask of it |
| `Prior.OnlyProportionsMatter` | crates/firstpass-core/src/prior.rs:27-30 | scaling the input by any positive factor changes nothing: callers need not normalise |
| `Auc.CodingAuc` | crates/firstpass-bench/src/coding.rs:1720-1747 | the nested loop is wins plus half ties over all positive-negative pairs, 0.5 without both classes |
| `Auc.AucIsPairShare` | crates/firstpass-bench/src/coding.rs:1718-1747 | either AUC times the number of positive-negative pairs is one for every pair the positive wins and a half for every tie, read off scores and labels |
| `Auc.Midranks` | crates/firstpass-bench/src/decision_study.rs:404-417 | over any sorted index order the in-place loop writes, for every index, the number of strictly lower group anchors plus half the group plus one half |
| `Auc.Auc` | crates/firstpass-bench/src/decision_study.rs:392-425 | none exactly when a class is empty; otherwise the pairwise AUC of the scores with every tie group moved to its lowest member |
| `Auc.RankSumIdentity` | crates/firstpass-bench/src/decision_study.rs:418-424 | sum of positive midranks minus n(n+1)/2 is wins plus half ties against the negatives |
| `Auc.WinsAndLosses` | crates/firstpass-bench/src/coding.rs:1718-1719 | wins of one side and of the other add up to the number of pairs |
| `Auc.GroupingIsUnique` | crates/firstpass-bench/src/decision_study.rs:406-417 | the tie groups depend on the scores alone, not on the sorted order found |
| `Auc.AucRange` | crates/firstpass-bench/src/coding.rs:1718-1747 | either AUC lies in [0, 1] |
| `Auc.SeparatedScoresAgree` | crates/firstpass-bench/src/decision_study.rs:389-390 | the two AUCs are equal when scores are pairwise equal or at least 1e-12 apart |
| `Auc.TiedScoresDisagree` | crates/firstpass-bench/src/decision_study.rs:408-410 | otherwise some labelling makes them differ |
| `Auc.AucsAgreeExactlyWhenSeparated` | crates/firstpass-bench/src/decision_study.rs:392-425 | the two implementations agree on every labelling if and only if the scores are pairwise equal or at least 1e-12 apart |
| `Conformal.Calibrate` | crates/firstpass-bench/src/competitors.rs:102-123 | returns the lowest rung-0 score of the calibration rows at which the wrong answers scored that high, and one more, are at most alpha times the rows and one; above everything exactly when no score is |
| `Conformal.CalibrationIsUnique` | crates/firstpass-bench/src/competitors.rs:98-101 | that promise determines the threshold |
| `Conformal.CalibratedOnScores` | crates/firstpass-bench/src/competitors.rs:98-123 | the calibrated threshold in raw scores: a score of the rows, its risk counted from scores and oracle verdicts, none below it that holds, and none at all exactly when nothing is accepted |
| `Conformal.ErrorsAntitone` | crates/firstpass-bench/src/competitors.rs:111-117 | a stricter threshold never accepts more wrong answers |
| `Conformal.MeetsUpward` | crates/firstpass-bench/src/competitors.rs:98-101 | every threshold above one that meets the bound meets it too |
| `Conformal.LeaveOneOutRisk` | crates/firstpass-bench/src/competitors.rs:98-101 | distribution-free: for any n + 1 rows, calibrating each on the other n, at most alpha * (n + 1) rows are accepted and wrong |
| `Conformal.JudgeEscalate` | crates/firstpass-bench/src/competitors.rs:86-96 | serves the first rung scored at least the threshold, else the last, at the sum of the costs up to it; an abstaining judge escalates, and nothing is served on an empty row |
| `Conformal.RungZeroServedExactlyWhen` | crates/firstpass-bench/src/competitors.rs:86-96 | on two rungs or more rung 0 is served if and only if its judge gave a score of at least the threshold |
| `Conformal.CascadeHarmIsCounted` | crates/firstpass-bench/src/competitors.rs:86-117 | on two rungs or more, what the cascade serves wrongly from rung 0 is exactly what calibration counts as an error |
| `Checkpoint.CheckpointFile.Load` | crates/firstpass-bench/src/coding_policy.rs:290-307 | the map of this ladder's rows, later rows winning; lines that do not parse and a missing path yield nothing |
| `Checkpoint.LoadTakesTheLast` | crates/firstpass-bench/src/coding_policy.rs:300-306 | of several rows of one task and ladder the last in the file is the one loaded |
| `Checkpoint.CheckpointFile.Append` | crates/firstpass-bench/src/coding_policy.rs:400-422 | adds one row at the end and changes nothing else; nothing without a path |
| `Checkpoint.MeasureResumable` | crates/firstpass-bench/src/coding_policy.rs:197-276 | result, calls made and file left behind of a run that may be killed at any rung call or write equal the pure execution; without a path they are those of a run from an empty file and nothing is written |
| `Checkpoint.LoadIsRecorded` | crates/firstpass-bench/src/coding_policy.rs:287-307 | a task is loaded exactly when the file records it for this ladder, and then with the row that was measured: no row of another ladder enters |
| `Checkpoint.RunsKeep` | crates/firstpass-bench/src/coding_policy.rs:197-276 | over any sequence of interrupted runs with distinct tasks the file only grows, holds only measured rows, and none twice |
| `Checkpoint.FinishedRunIsUninterruptedRun` | crates/firstpass-bench/src/coding_policy.rs:185-188 | a run that finishes returns exactly the matrix of an uninterrupted measurement, every entry what its model measures on its task, whatever it resumed from |
| `Checkpoint.ContinueReachesTheEnd` | crates/firstpass-bench/src/coding_policy.rs:216-275 | without a cap and with enough time every run finishes |
| `Checkpoint.RunEndsExactlyWhen` | crates/firstpass-bench/src/coding_policy.rs:214-275 | exactly how a run ends: it finishes if and only if at every task without a row the recorded spend with what the tasks before it cost is below the cap and there is time for its calls and its row; the first that fails ends it as capped if the cap is reached there, else as interrupted |
| `Checkpoint.CapReachedIsSpent` | crates/firstpass-bench/src/coding_policy.rs:221-230 | a run that stops for money leaves a file that records spend of at least the cap |
| `Checkpoint.RunNeverRebuys` | crates/firstpass-bench/src/coding_policy.rs:216-220 | a run never calls a model for a recorded task, calls no rung of a task twice, and calls every rung of what it records |
| `Checkpoint.NeverPaidTwice` | crates/firstpass-bench/src/coding_policy.rs:185-188 | across any interleaving of runs and ladders, no task completed and recorded is paid for again on its ladder |
| `Checkpoint.NothingBoughtTwiceExactlyWhenDistinct` | crates/firstpass-bench/src/coding_policy.rs:216-219 | a finished run records nothing twice if and only if its task ids are distinct: a repeated id is bought again, because its row was removed from the map |
| `Checkpoint.RunsStayUnderCap` | crates/firstpass-bench/src/coding_policy.rs:212-230 | over any sequence of capped runs every row was bought while the recorded spend was below the cap |
| `Checkpoint.OvershootIsOneRow` | crates/firstpass-bench/src/coding_policy.rs:221 | hence recorded spend is below the cap plus one row |
| `Checkpoint.SpendCapSurvivesInterruption` | crates/firstpass-bench/src/coding_policy.rs:212-230 | resuming gives no fresh budget: after any sequence of interrupted capped runs the recorded spend is below the cap plus one row's cost |
| `Spending.RunSettles` | crates/firstpass-bench/src/coding_policy.rs:231-273 | a run pays for the rows it records, at exactly what the recorded spend grows by, plus at most one unrecorded row, and that only when it is interrupted |
| `Spending.PaidIsRecordedPlusLost` | crates/firstpass-bench/src/coding_policy.rs:210-230 | conservation over any series of interrupted runs: everything paid on a ladder is the growth of its recorded spend plus what interruptions lost, and its calls number those of the new rows plus at most one row per interrupted run |
| `Spending.CapOnEverythingPaid` | crates/firstpass-bench/src/coding_policy.rs:210-230 | with all runs capped, everything paid is below the cap plus one recorded row plus what interruptions lost, and nothing is lost without one |
| `Spending.InterruptionsOutspendAnyCap` | crates/firstpass-bench/src/coding_policy.rs:212-213 | what the cap does not stop: n runs killed after their first call leave the file empty and pay for that call n times |
| `Spending.CapBoundsAllExactlyWithoutInterruption` | crates/firstpass-bench/src/coding_policy.rs:210-230 | for every ladder whose first rung has a price: all series of capped runs with at most i interruptions pay nothing or less than the cap plus one recorded row if and only if i is zero |
| `Checkpoint.ReplayReadsTheFront` | crates/firstpass-bench/src/coding_policy.rs:309-396 | at any moment, with runs of other ladders in between, naming the ladder reads exactly the front of its full matrix in task order, nothing read being an error |
| `Checkpoint.ReplayReadsWhatWasMeasured` | crates/firstpass-bench/src/coding_policy.rs:318-396 | once some run of a ladder has finished, naming that ladder reads its full matrix in task order whatever other ladders were measured in between; without a name the same, or a refusal if the file holds another ladder |
| `Checkpoint.ReplayExactlyWhen` | crates/firstpass-bench/src/coding_policy.rs:325-396 | a file can be replayed if and only if every line parses, the named ladder occurs, or only one does if none is named, and all its rows are as wide as it; then its rows are read |
| `Checkpoint.ReadInOrder` | crates/firstpass-bench/src/coding_policy.rs:337-378 | lines are read one after another: records yield their row, others nothing, and the rows of a ladder keep their order |
| `Scanner.TopLevelComma` | crates/firstpass-bench/src/dataset.rs:189-213 | the loop finds the first separator of the pure scan |
| `Scanner.FirstCommaIsFirst` | crates/firstpass-bench/src/dataset.rs:187-188 | what it finds is at depth 0 outside literals, and nothing before it is |
| `Scanner.ConvertAssert` | crates/firstpass-bench/src/dataset.rs:168-185 | strips the keyword and the message, with both error cases |
| `Scanner.RejectsOtherStatements` | crates/firstpass-bench/src/dataset.rs:168-176 | a statement is refused as no assert if and only if, leading space aside, it does not begin with the keyword |
| `Scanner.RefusesEmptyExpressions` | crates/firstpass-bench/src/dataset.rs:168-185 | an assert without an expression, with or without a message, is refused as empty |
| `Scanner.SpacesAreSkipped` | crates/firstpass-bench/src/dataset.rs:168-176 | each of the six ASCII space characters is skipped around the keyword |
| `Scanner.QuotesAndBracketsHide` | crates/firstpass-bench/src/dataset.rs:189-213 | either quote and each of the three brackets hides a comma |
| `Scanner.PrintTransparent` | crates/firstpass-bench/src/dataset.rs:164-166 | every expression of atoms, nested brackets and escaped literals, at any depth, is passed without finding a separator and leaves the scan where it was |
| `Scanner.RustRoundTrip` | crates/firstpass-bench/src/dataset.rs:168-185 | for every such expression, message and padding, converting the written assert returns the expression |
| `Scanner.RustRoundTripBare` | crates/firstpass-bench/src/dataset.rs:177-180 | also without a message |
| `Scanner.PyConvertAssert` | scripts/export-vrbench-tasks.py:48-83 | the second scanner's loop refines its pure scan |
| `Scanner.PythonBareExpression` | scripts/export-vrbench-tasks.py:61-66 | a case without the keyword is returned as it stands if and only if it holds no separator |
| `Scanner.SameViewExactlyWithoutMisreading` | scripts/export-vrbench-tasks.py:71-74 | on any text, the two scans see every prefix alike if and only if no literal is closed right after a backslash |
| `Scanner.SameComma` | scripts/export-vrbench-tasks.py:67-83 | then they find the same separator |
| `Scanner.SingleBackslashesAreRead` | scripts/export-vrbench-tasks.py:71-74 | which includes every text without two adjacent backslashes |
| `Scanner.SameViewExactlyWhenLiteralsEndClean` | scripts/export-vrbench-tasks.py:71-74 | for written expressions the two scans see every prefix alike if and only if no literal ends in an escaped backslash |
| `Scanner.EscapedBackslashSplitsThem` | scripts/export-vrbench-tasks.py:71-74 | a literal ending in an escaped backslash: the Rust scan finds the message, the Python scan runs past it |
| `Scanner.PythonRoundTrip` | scripts/export-vrbench-tasks.py:48-83 | the Python conversion returns the expression for every expression whose literals end clean, written after "assert " with any further space or as "assert(", with any message or none |
| `Scanner.PythonRoundTripIsAboutTheText` | scripts/export-vrbench-tasks.py:48-83 | on every expression text and for every message: the Python conversion returns the text if and only if its own scan of the text ends outside brackets and literals and meets no separator; without a message, if and only if it meets none |
| `Scanner.PythonKeepsTheMessage` | scripts/export-vrbench-tasks.py:67-83 | if the first literal ending in an escaped backslash is the last to write its quote and the message holds no such quote, exactly expression and message stay in the result |
| `Scanner.PythonRoundTripExactlyWhen` | scripts/export-vrbench-tasks.py:60-83 | for every message, among expressions whose literals end clean and those whose first literal that does not is the last to write its quote, the conversion returns the expression if and only if its literals end clean |
| `Scanner.DirtyMayBeTransparent` | scripts/export-vrbench-tasks.py:71-74 | a literal ending in an escaped backslash whose misreading a later escaped quote makes up for: beyond those expressions only the scan of the text decides |
| `RoundRobin.GroupByRepo` | scripts/fetch-coding-dataset.py:253-255 | the grouping holds each repository's rows in pool order, for exactly the repositories that occur |
| `RoundRobin.Select` | scripts/fetch-coding-dataset.py:256-263 | the loop empties the queues round by round and keeps exactly min(limit, rows queued), none for a limit of zero or less |
| `RoundRobin.KeptIsTaken` | scripts/fetch-coding-dataset.py:257-263 | what is kept is conserved: as many rows as were taken from the queues |
| `RoundRobin.KeptIsPrefix` | scripts/fetch-coding-dataset.py:250-252 | what is kept of each repository is a prefix of its rows, in dataset order |
| `RoundRobin.Balanced` | scripts/fetch-coding-dataset.py:250-252 | one repository is more than one row ahead of another only if the other is exhausted, and a later one is never ahead unless the earlier is |
| `RoundRobin.QueuesHoldThePool` | scripts/fetch-coding-dataset.py:253-256 | the queues together hold the whole pool |
| `RoundRobin.Sample` | scripts/fetch-coding-dataset.py:250-263 | the sample as a whole: min(limit, pool) rows, prefixes, balanced |
| `Fitters.Cascade` | scripts/analyze-agent-cascade.py:321-328 | serves the first rung within its step threshold, else the last, at the sum of the costs up to it |
| `Fitters.Pick` | scripts/analyze-agent-cascade.py:349-357 | the cheapest feasible candidate, first index on ties; without one the most resolved, cheapest among those |
| `Fitters.Combos` | scripts/analyze-agent-cascade.py:376-379 | enumerates exactly the product of the grids |
| `Fitters.GridEntriesAreQuantiles` | scripts/analyze-agent-cascade.py:363-374 | a threshold is on the grid of a rung if and only if it is -1 or, for some tenth q of 0 to 10, a training step count with more than q(n-1)/10 of them at most as large and at most that many smaller |
| `Fitters.AlwaysEscalateIsTop` | scripts/analyze-agent-cascade.py:360-361 | the all -1 candidate resolves exactly what the top model resolves |
| `Fitters.FitTaus` | scripts/analyze-agent-cascade.py:360-381 | so the fallback is dead: the fitted thresholds are on the grid, resolve at least the top model's count, and are the cheapest that do |
| `Fitters.CascadeScoreIsTotal` | scripts/analyze-agent-cascade.py:349-352 | the scores compared are the number of rows the cascade resolves and the sum of its bills |
| `Fitters.BuildStats` | scripts/analyze-agent-cascade.py:386-391 | per repository and rung, resolved and seen counts |
| `Fitters.ResolvedCounts` | scripts/analyze-agent-cascade.py:386-391 | the counts are those of the rows of the repository, or of all rows, that the model resolves |
| `Fitters.BestInEachIsBest` | scripts/analyze-agent-cascade.py:404-406 | a choice at least as good as the reference in every repository is at least as good in total |
| `Fitters.ZeroToleranceBeatsEveryModel` | scripts/analyze-agent-cascade.py:404-406 | the router with eps = 0 resolves at least what any single model does |
| `Fitters.FitEps` | scripts/analyze-agent-cascade.py:404-406 | so its fallback is dead too: the fitted eps is on the grid, feasible, and the cheapest feasible |
| `Fitters.RouteScoreIsTotal` | scripts/analyze-agent-cascade.py:404-406 | the scores compared are counts and sums over the rows' own runs of the routed models |
| `Fitters.RouteRow` | scripts/analyze-agent-cascade.py:394-400 | routes to the first rung within eps of the best rate, by overall rates for an unseen repository |
| `Fitters.RouteIsFirstInBand` | scripts/analyze-agent-cascade.py:394-400 | the routed model resolves at most the share eps of the repository's rows fewer than any other, all rows counting if it was never seen, and no model before it does |
| `Fitters.AnyEligibleChoiceBeatsEveryModel` | scripts/analyze-agent-granularity.py:462-463 | with eps = 0 any choice among eligible rungs, such as the cheapest on average, still beats every single model |
| `PoolRouter.BuildPoolStats` | scripts/analyze-agent-granularity.py:440-446 | per repository and model, resolved, seen and cost sums |
| `PoolRouter.RoutePoolRow` | scripts/analyze-agent-granularity.py:454-465 | routes to the model of least average cost, first among equals, of those within eps of the best rate, by overall figures for an unseen repository |
| `PoolRouter.CheapestWithin` | scripts/analyze-agent-granularity.py:462-463 | the choice is within eps of the best rate, no such model is cheaper, and none before it is as cheap |
| `PoolRouter.RouteIsCheapestInBand` | scripts/analyze-agent-granularity.py:454-465 | in counts and sums over the repository's rows, all rows if it was never seen: the routed model is within the share eps of every other, none that is costs less, and none before it as little |
| `PoolRouter.RouterIsCheapest` | scripts/analyze-agent-granularity.py:434-436 | on the training half no choice of models within the tolerance, made repository by repository, costs less in total than the router |
| `PoolRouter.WiderToleranceCostsNoMore` | scripts/analyze-agent-granularity.py:434-436 | so a wider tolerance never costs more there |
| `PoolRouter.CheaperThanFirstEligible` | scripts/analyze-agent-granularity.py:462-463 | and the router never costs more than the one of the cascade script, which takes the first eligible rung |
| `PoolRouter.ToleranceLosesAtMostItsShare` | scripts/analyze-agent-granularity.py:434-435 | routing within eps resolves at least what any single model does, less the share eps of the rows |
| `PoolRouter.FitPoolEps` | scripts/analyze-agent-granularity.py:470-489 | the fitted eps is on the grid, feasible against any reference model, and the cheapest feasible; the fallback is dead |
| `PoolRouter.PoolScoreIsTotal` | scripts/analyze-agent-granularity.py:479-486 | the scores compared are counts and sums over the rows' own runs of the routed models |
| `PoolRouter.UnseenRoutesToTheCheapest` | scripts/analyze-agent-granularity.py:436-436 | the selection rule is that of select_cheapest: a repository never seen is routed to the model that rule takes for all rows |
| `Trajectory.SignalsFrom` | crates/firstpass-bench/src/agentic.rs:148-167 | failures, results and repeats over the last six attempts, depth over all; repeats are window size minus distinct codes |
| `Trajectory.SignalsCount` | crates/firstpass-bench/src/agentic.rs:148-167 | for every conversation: over its last six attempts the number that failed, their number, and their number less that of their distinct codes; and the number of all attempts |
| `Trajectory.RepetitionShrinksCodes` | crates/firstpass-bench/src/agentic.rs:151-159 | the repeat count is positive if and only if a code occurs twice in the window |
| `Trajectory.AskRungs` | crates/firstpass-bench/src/agentic.rs:276-338 | a turn is abandoned exactly when some rung's call fails; otherwise every rung answered the same conversation and its costs are summed |
| `Trajectory.RunTask` | crates/firstpass-bench/src/agentic.rs:253-363 | what a run records is a trajectory: turn t was asked after exactly the first t failed cheap answers and records both verdicts and the cost of every rung's answer; it ends at the turn limit or when the cheap rung passes; spend is the sum over all rungs of all turns; a failed call yields no record |
| `Trajectory.RecordedSignals` | crates/firstpass-bench/src/agentic.rs:263-269 | turn t of every trajectory has depth t, min(t, 6) errors and as many results, repeats exactly when the window holds a code twice, and every turn but the last fails at rung 0 |
| `Trajectory.StageRouterReadsTheTurnIndex` | scripts/analyze-swe-checkpoint.py:208-214 | on such trajectories, for thresholds up to six, the session-signal rule serves the top rung exactly from turn k on or when a code repeats in the window |
| `Trajectory.ThresholdBeyondTheWindow` | scripts/analyze-swe-checkpoint.py:212 | a threshold above six is met by repetition only |
| `CacheCost.NocacheCost` | scripts/analyze-agent-granularity.py:294-299 | the sum over steps, and its quadratic closed form in the script's constants |
| `CacheCost.WithcacheCost` | scripts/analyze-agent-granularity.py:302-318 | the loop over cached steps, and its quadratic closed form in the script's constants |
| `CacheCost.SavingIsBoundedByTheReadDiscount` | scripts/analyze-agent-granularity.py:302-318 | caching never divides the bill by more than 1/CACHE_READ_MULT |
| `CacheCost.RatioNeverFallsExactlyWhen` | scripts/analyze-agent-granularity.py:294-318 | the uncached-over-cached ratio is nondecreasing in N >= 1 if and only if the first prompt is large enough against one step's growth and output |
| `CacheCost.LongFirstPromptCarriesTheRatio` | scripts/analyze-agent-granularity.py:294-318 | which holds whenever I0 >= delta >= 0 with nonnegative prices |
| `CacheCost.EmptyFirstPromptLosesTheRatio` | scripts/analyze-agent-granularity.py:294-318 | and fails for an empty first prompt |
| `Buckets.Fit` | crates/firstpass-bench/src/jev_replay.rs:863-895 | the counting loop yields, per quartile bucket, the examples seen and those that passed, and the base rate |
| `Lists.SortedEntryIsQuantile` | crates/firstpass-bench/src/jev_replay.rs:864-872 | the entry at position k after sorting has more than k entries at most as large and at most k smaller ones |
| `Buckets.BucketsAreQuartiles` | crates/firstpass-bench/src/jev_replay.rs:864-872 | each edge is a quartile, ties included: the buckets up to it hold more than a quarter, half or three quarters of the examples, rounded down, at most that many lie strictly below it, and all four hold everything |
| `Buckets.RatesAreProbabilities` | crates/firstpass-bench/src/costaware.rs:126-131 | every predicted rate, base-rate fallback included, is a probability, and hits never exceed what was seen |
| `Buckets.RateIsShare` | crates/firstpass-bench/src/costaware.rs:126-131 | the predicted rate is the share of the examples within the same edges that passed; with none there the share among all tasks of the fold, zero without any |
| `Buckets.BlendIsWeightedMean` | crates/firstpass-bench/src/jev_replay.rs:924-929 | the blend is the prior where nothing was seen, lies between prior and bucket rate, and keeps ten examples' weight of the distance |
| `CrossFit.StepByTwo` | crates/firstpass-bench/src/jev_replay.rs:378-384 | stepping by two collects the elements of one parity: half of them rounded for the parity, the k-th being element 2k plus the parity |
| `CrossFit.FoldIgnoresTheOther` | crates/firstpass-bench/src/jev_replay.rs:370-372 | a fold does not depend on the rows of the other parity |
| `CrossFit.MeanCostPerRung` | crates/firstpass-bench/src/jev_replay.rs:356-368 | mean cost of each rung over the rows that have it, zero if none |
| `CrossFit.MeanCostsTheRows` | crates/firstpass-bench/src/jev_replay.rs:356-368 | the mean times the number of rows that have the rung is what they paid there |
| `CrossFit.PointsFollow` | crates/firstpass-bench/src/jev_replay.rs:976-990 | a task gives one example of its prompt length if known and one of its cheap cost if it has a rung, both with whether its cheap attempt passed the gate; those of several tasks follow one another |
| `CrossFit.BuildTaskFits` | crates/firstpass-bench/src/jev_replay.rs:963-1025 | every task keeps its row and gets its prior if usable, prices, length rate, length counts and hindsight rate of the tasks of the other parity |
| `CrossFit.EveryFitServes` | crates/firstpass-bench/src/jev_replay.rs:936-940 | an arm serves every joined task except, on a ladder without rungs, a task of known prompt length under the ex-ante arm |
| `CrossFit.ArmBelieves` | crates/firstpass-bench/src/jev_replay.rs:924-940 | what each arm decides by: the prior itself; the length bucket's rate for the cheap rung and one above; or for the cheap rung ten times the prior plus the hits over ten plus the seen |
| `CrossFit.ServePrior` | crates/firstpass-bench/src/jev_replay.rs:1057-1066 | first-pass from the argmin start under the prior, marked fallback from rung 0 without one, also on a ladder without rungs |
| `CrossFit.ServeLearnedExante` | crates/firstpass-bench/src/jev_replay.rs:1070-1080 | the same under the length bucket's rate |
| `CrossFit.ServePriorPlusLearned` | crates/firstpass-bench/src/jev_replay.rs:1086-1098 | the same under the blend of prior and bucket counts |
| `CrossFit.StartRungIsBlind` | crates/firstpass-bench/src/jev_replay.rs:959-962 | two-run property: whatever a task's rungs measure, neither its own start rung nor that of any task of its fold moves, under the prior, ex-ante and blended arms |
| `CrossFit.OtherFoldIsMoved` | crates/firstpass-bench/src/jev_replay.rs:976-977 | tasks of the other fold can move: a dearer cheap attempt at one task sends another to the top |
| `CrossFit.ConformalLambdas` | crates/firstpass-bench/src/competitors.rs:155-163 | each fold's threshold is the calibration of the other fold |
| `CrossFit.ThresholdIsBlind` | crates/firstpass-bench/src/competitors.rs:152-154 | no task is scored by a threshold its own row helped choose |
| `CrossFit.HindsightIsNotBlind` | crates/firstpass-bench/src/jev_replay.rs:1105-1111 | the hindsight arm reads the task's own realised cost: the same task billed differently starts elsewhere |
| `CrossFit.ArmVectorIsSensible` | crates/firstpass-bench/src/jev_replay.rs:931-940 | with nonnegative measured costs every arm decides on probabilities and nonnegative prices |
| `CrossFit.EveryArmMinimisesItsBill` | crates/firstpass-bench/src/jev_replay.rs:1057-1098 | so no start has a mean first-pass bill lower than an arm's choice by more than the cut-off share of the prices |
| `CrossFit.ScoredSet` | crates/firstpass-bench/src/costaware.rs:275-294 | odd fold then even fold, each row with the rate of its cheap cost's bucket fitted on the other fold, one on an empty row |
| `CrossFit.ScoredSetIsThePopulation` | crates/firstpass-bench/src/costaware.rs:273-274 | the scored set is a permutation of the matrix, so plain first-pass totals of successes and cost are exact |
| `CrossFit.FirstPassArm` | crates/firstpass-bench/src/costaware.rs:232-258 | the arm's loop sums correct answers and spend of plain first-pass |
| `CrossFit.SolvedAndPaid` | crates/firstpass-bench/src/costaware.rs:232-258 | which are the number of rows served correctly and the sum of the bills of whatever serves as first-pass does |

## Left out

- Floating point: all quantities are exact reals, so rounding, overflow, NaN and signed zero are not modelled; the
  tolerances 1e-10 and 1e-12 and the machine epsilon of the pairwise AUC are kept as constants. The largest float
  used as the first best cost is modelled as "no candidate yet", infinity as a constructor of its own.
- Calls to models, retries, prompts, sandboxes, JSON, downloads and rendering: a measurement is a given function of
  its inputs. Random draws and bootstrap intervals: theorems quantify over all outcomes or over adaptive
  environments instead.
- Checkpoint.MeasureResumable: write errors that the code swallows and lines torn in the middle of a write are not
  modelled; an append either happens whole or the run has been killed before it.
- Checkpoint.CheckpointFile.Append: a write that fails without an error is not modelled.
- Checkpoint.SpendCapSurvivesInterruption: bounds recorded spend; what is paid on top is bounded per interruption by
  `Spending.CapOnEverythingPaid`, and `Spending.InterruptionsOutspendAnyCap` shows that no cap bounds it altogether.
- Scanner.RustRoundTrip: strings are sequences of characters, so byte offsets and Unicode whitespace beyond ASCII
  are not modelled; triple-quoted and prefixed literals are not part of the expression grammar.
- Scanner.PythonRoundTripExactlyWhen: states its condition on the expression where a quote that was misread is not
  written again; elsewhere a later quote can bring the scan back (`Scanner.DirtyMayBeTransparent`) and the exact
  condition is the one on the text, `Scanner.PythonRoundTripIsAboutTheText`.
- Sorting calls are modelled by insertion functions with the same result; the order of `sorted(by_repo)` is an
  arbitrary duplicate-free listing of the repositories.
- RoundRobin.Select: the queue lists are an array of sequences; aliasing of the grouped lists with the pool is not
  modelled, the code does not use it.
- Trajectory.RunTask: the rung's answer already stands for the budget retries (an answer with no text is an empty
  candidate) and for the two test suites; saturating conversions of counts to 32 bits are not modelled.
- CrossFit.BuildTaskFits: models `build_blend_task_fits`; `build_task_fits` is the same join without the prompt
  length. The hindsight rate is included and shown not to be blind.
- Fitters.FitTaus: quantile positions are computed in exact arithmetic. The copy in `analyze-agent-granularity.py`
  breaks cost ties by the thresholds instead of by position; the contract leaves ties open and covers both.
- Fitters.FitEps: rates are computed in exact arithmetic, and a reference index counted from the end is given as the
  position it stands for; the same goes for `PoolRouter.FitPoolEps`.
- StartRung.ArgminExpectedCost: the token accounting that produces the prices is a parameter; `noisy_prior` in the
  same file is not modelled.
- The calibration in firstpass-core, the hash chain, `select.rs`, `eprocess.rs`, the meta-verifier study and the
  simulation backend are not part of this model.
- `switch_overhead_usd`, `combined_score`, ablation and elastic costs, confidence intervals of proportions and
  summary ratios: simple expressions that would only add easy members.
