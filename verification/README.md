# Verified model of the assessment platform's core services

The project models the parts of the platform whose correctness spans several operations and proves
their properties for all inputs, runs or reachable states. `dafny verify dfyconfig.toml` checks it.

| files | what they model |
|---|---|
| `SessionModel`, `Lifecycle`, `SessionService` | the session lifecycle: session rows, the append-only event log, a clock and the delayed-job queue; one specification function per service method, and the service, queue provider and worker classes proved against them |
| `LifecycleLaws` | what begin, heartbeat, close and the table come to, in row fields and plain numbers |
| `LifecycleInvariants`, `LifecycleTheorems`, `HeartbeatScan` | the inductive invariant over all interleavings, trace theorems, and the fleet-wide heartbeat scan |
| `Scoring`, `ScoringTheorems`, `ScoringLaws` | module, composite and Say-Do scores, and the weight check they rest on |
| `Dashboard`, `DashboardTheorems` | correlation, histograms and quartile outliers |
| `SqlCompare`, `SqlCompareTheorems`, `SqlValues`, `Shuffler`, `ShufflerTheorems`, `ShufflerOrder`, `Rake` | three procedural algorithms with a simple mathematical meaning: bag equality, sets of hash classes, degree sums |
| `Proctoring` | cooldown spacing of stored events |
| `QuestionStore`, `QuestionServices`, `QuestionTheorems` | question versions and the drive rows that snapshot them |
| `Prelude`, `RealSums`, `RealAlgebra`, `Sorting`, `Strings` | shared shapes and the mathematics the above need |

Code that updates fields or rows is a class or a method with loops, and its `ensures` equates the new
state with a specification function of the old one; the theorems are then about those functions and
their runs.

Assumptions of the lifecycle model: each service method is one atomic step (its read, its update, its
log row and its enqueue together); the clock does not go back; the queue drops an add under a job id
that is still pending and removes a completed job.

## Where the code and its description differ

The model follows the code.

- A grace job stays pending after a resume, and the next disconnect's add under the same id is dropped.
  A later disconnect can therefore be auto-submitted before its window ends (`StaleJobCutsWindow`).
  `FullWindowIff` gives the exact condition; "no later than" (`ReachableGraceCoverage`) and "a full
  window after some disconnect" (`ExpiryNeverEarly`) always hold.
- `closeSession` accepts DISCONNECTED sessions; the transition table and the method's comment do not.
  `ChangesAreTableEdges` gives the exact steps that leave the table.
- The architecture plan says `disconnected_at` is null unless the status is DISCONNECTED. Closing while
  disconnected leaves it set (`CloseLeavesInstantSet`); `InstantKeptIff` lists exactly the steps that do.
- Composite scores are stored as points from 0 to 120, while the dashboard reads a fraction
  in its histogram and its pass rate (`PointsBucketAgreesIff`, `PassAgreesIff`, `StoredCompositeMisread`).
- Point shares may be negative. In difficulty mode a score can then leave [0, 1], and a better answer can
  lower it (`NegativeShareExample`); `ModuleScoreWithinIff` and `RaisingNeverLowersIff` say exactly when.
- The weight check admits negative weights; `CompositeWithinIff` says exactly which weights keep the limits.
- In difficulty mode a module whose shares add up to nothing scores 0.8 however wrong the answers are
  (`AllWrongScoresZeroIff`, `WrongAnswerScoresFallback`).
- A session without any answer is scored as if MCQ stood at 0.8 and CODING at 0.85, so a first answer can
  lower its score when it is wrong (`FirstAnswerLowers`). From the first answered module on, while no
  share or weight is negative, answering further modules never does (`MoreModulesNeverLowerIff`, and
  `MoreModulesNeverLowerUnderIff` for given weights). A further answer inside a module already answered
  can (`SecondAnswerLowers`), exactly when the module has earned anything (`FurtherAnswersNeverLowerIff`).
- The content hash joins module, prompt and extras with colons and options with bars, and escapes
  neither. Different questions can share a hash through a colon in a prompt (`ColonCollision`) or a bar in
  an option (`BarCollision`), and a candidate then gets only one of them (`CollisionDropsQuestion`).
  Starter codes are read without any white space (`CodeCollision`) and expected queries without letter
  case (`QueryCollision`). `PreImagesAlikeIff`, `OptionsAlikeIff`, `CodesAlikeIff` and `QueriesAlikeIff`
  say exactly when.
- The result comparison reads the candidate's keys only. Which side is the candidate can matter
  (`AsymmetricWithoutSharedKeys`), for some pair of any two different row widths and for no pair of equal
  ones (`SymmetricIffEqualWidths`). Columns are matched up to case but rows are read in case-sensitive key
  order, so respelling a column can change the verdict (`RespellingIff`).
- Updating a question can repeat a version number inside its family: exactly when the family already
  holds the number after the updated row's (`VersionsStayDistinctIff`, `ReachableCollision`).

## Model

| member | source | states |
|---|---|---|
| `SessionService.SessionService.CreateSession` | backend/api/src/session/session.service.ts:267-281 | a NOT_STARTED row without start, deadline, heartbeat or tab; nothing else changes |
| `SessionService.SessionService.BeginSession` | backend/api/src/session/session.service.ts:308-391 | the whole new state and the answer: a begun session is answered as it stands, 20 minutes after the scheduled start it is refused, otherwise deadline = now + effective minutes |
| `SessionService.SessionService.TotalEnabledMinutes` | backend/api/src/session/session.service.ts:351-358 | the loop adds up the minutes of the enabled modules only |
| `SessionService.SessionService.Heartbeat` | backend/api/src/session/session.service.ts:403-457 | new state and answer: missing, not IN_PROGRESS and second-tab refusals change nothing; an accepted beat registers its tab and touches nothing but the three activity fields |
| `SessionService.SessionService.ResumeSession` | backend/api/src/session/session.service.ts:470-559 | new state and answer with the four refusals in the code's order; success logs one reconnect |
| `SessionService.SessionService.CloseSession` | backend/api/src/session/session.service.ts:567-650 | new state and answer: repeat closes of SUBMITTED are answered, other finished rows and passed deadlines are refused, success logs one submission |
| `SessionService.SessionService.MarkDisconnected` | backend/api/src/session/session.service.ts:660-740 | new rows, log and pending jobs on both sides of the disconnect limit, and no change unless IN_PROGRESS |
| `SessionService.SessionService.AutoSubmit` | backend/api/src/session/session.service.ts:748-794 | new state: only a DISCONNECTED row is submitted, with one log row |
| `LifecycleLaws.CreateOutcome` | backend/api/src/session/session.service.ts:267-281 | a new session has its role's minutes, no instants, no tab and count zero; nothing else changes |
| `LifecycleLaws.OneSlotMinutes` | backend/api/src/session/session.service.ts:352-354 | a disabled module counts 0 minutes, an enabled one its own |
| `LifecycleLaws.MinutesAdd` | backend/api/src/session/session.service.ts:352-354 | the drive's minutes add up over concatenation of its modules |
| `LifecycleLaws.EnabledMinutesAre` | backend/api/src/session/session.service.ts:351-354 | the drive's minutes are the sum of the durations at the enabled positions |
| `LifecycleLaws.BeginOutcome` | backend/api/src/session/session.service.ts:328-377 | a begin of a NOT_STARTED session is refused iff now > scheduleStart + 1200000; otherwise its deadline is now + 60000 times that sum if positive, else times the role's minutes, and no other row changes |
| `LifecycleLaws.BeginAgain` | backend/api/src/session/session.service.ts:314-326 | a begun session is answered as it stands and a missing one refused, without a change |
| `LifecycleLaws.DeadlineExample` | backend/api/src/session/session.service.ts:345-365 | a role of 90 minutes with 60 enabled and 30 disabled: one hour |
| `LifecycleLaws.HeartbeatOutcome` | backend/api/src/session/session.service.ts:411-449 | a beat is taken iff the session runs and no other non-empty tab holds it; its whole effect on the row |
| `LifecycleLaws.RepeatedClose` | backend/api/src/session/session.service.ts:584-590 | closing again, however much later, answers with the first submission's instant and changes nothing |
| `LifecycleLaws.LoggedEvent` | backend/api/src/session/session.service.ts:536-544 | what resume, close and auto-submit add to the log, and that a heartbeat adds nothing |
| `LifecycleLaws.LoggedDisconnect` | backend/api/src/session/session.service.ts:685-722 | a disconnect logs its number, as the last one at the limit |
| `LifecycleLaws.TableShape` | backend/api/src/session/session-state-machine.ts:11-31 | the transition table: what can be entered from where, CLOSED final, ABANDONED and NOT_STARTED never entered |
| `SessionModel.JobIdShape` | backend/api/src/session/session.service.ts:732 | the job id is grace- followed by the session id |
| `SessionService.BullmqQueueProvider.EnqueueDelayed` | backend/api/src/queue/bullmq-queue.provider.ts:28-40 | an add under a pending job id leaves the queue as it was; an unknown queue name is an error; the other queue is untouched |
| `SessionService.GraceWindowProcessor.Process` | backend/api/src/queue/grace-window.processor.ts:34-41 | one delivery is one autoSubmit of the job's session |
| `SessionService.GraceWindowProcessor.RunDueJob` | backend/api/src/queue/grace-window.processor.ts:34-41 | a due job runs once and leaves the queue on completion |
| `LifecycleInvariants.MarkDisconnectedKeepsInv` | backend/api/src/session/session.service.ts:660-740 | the lifecycle invariant (row shape, grace coverage, log agreement, job ownership) survives a disconnect, dropped adds included |
| `LifecycleInvariants.ResumeKeepsInv` | backend/api/src/session/session.service.ts:470-559 | resuming keeps the invariant although the earlier grace job stays pending |
| `LifecycleInvariants.CloseKeepsInv` | backend/api/src/session/session.service.ts:567-650 | closing keeps the invariant |
| `LifecycleInvariants.AutoSubmitKeepsInv` | backend/api/src/session/session.service.ts:748-794 | auto-submission keeps the invariant |
| `LifecycleInvariants.DropJobKeepsInv` | backend/api/src/queue/bullmq-queue.provider.ts:37 | removing a completed job is harmless exactly where the worker does it: its session is not DISCONNECTED |
| `LifecycleInvariants.BeginKeepsInv` | backend/api/src/session/session.service.ts:308-377 | beginning keeps the invariant |
| `LifecycleInvariants.HeartbeatKeepsInv` | backend/api/src/session/session.service.ts:403-449 | heartbeats keep the invariant |
| `LifecycleInvariants.FireKeepsInv` | backend/api/src/queue/grace-window.processor.ts:34-41 | running a due job and removing it keeps the invariant |
| `LifecycleInvariants.StepKeepsInv` | backend/api/src/session/session.service.ts:308-794 | each single step keeps the invariant |
| `LifecycleInvariants.RunKeepsInv` | backend/api/src/session/session.service.ts:308-794 | the invariant holds after every finite interleaving of create, begin, heartbeat, resume, close, disconnect, auto-submit, job firing and time passing |
| `LifecycleTheorems.ReachableRowShape` | backend/api/src/session/session.service.ts:362-377 | reachable rows: IN_PROGRESS has start and deadline, no disconnect instant and count below the limit; DISCONNECTED has an instant, no tab and 1 <= count < limit; SUBMITTED has startedAt <= submittedAt <= deadlineAt |
| `LifecycleTheorems.ReachableLogRebuildsRow` | backend/api/src/session/session.service.ts:685-722 | strict replay of a begun session's log from (IN_PROGRESS, 0) gives exactly its stored status, count, disconnect instant and submission instant |
| `LifecycleTheorems.ReachableGraceCoverage` | backend/api/src/session/session.service.ts:703-734 | a DISCONNECTED session always has its own grace job pending, due no later than disconnectedAt + graceWindow |
| `LifecycleTheorems.SettledMeansResumable` | backend/api/src/session/session.service.ts:510-520 | when no job is due, every DISCONNECTED session is before its cutoff and its resume is accepted |
| `LifecycleTheorems.DrainSettles` | backend/api/src/queue/grace-window.processor.ts:34-41 | there is an order of deliveries after which no job is due; it auto-submits exactly the DISCONNECTED sessions whose job was due |
| `LifecycleTheorems.EveryOrderDrains` | backend/api/src/queue/grace-window.processor.ts:34-41 | every order of deliveries that leaves no job due ends in those same rows: the due DISCONNECTED sessions auto-submitted, all others as they were |
| `LifecycleTheorems.ResumeOutcome` | backend/api/src/session/session.service.ts:479-520 | in invariant states resume succeeds iff DISCONNECTED and inside the window; the max-disconnect refusal never occurs; an expired refusal means the grace job is due |
| `LifecycleTheorems.StepIsRowStep` | backend/api/src/session/session.service.ts:308-794 | each step leaves any one row equal or moves it along one of eight edges; per edge the counter, tab, activity, start, deadline, disconnect and submission stamps it writes or keeps, and the heartbeat stamp where the session goes on |
| `LifecycleTheorems.StatusCauses` | backend/api/src/session/session.service.ts:308-794 | for each of the seven status changes, the one kind of step and the pre-state that make it, both directions |
| `LifecycleTheorems.StepCauses` | backend/api/src/session/session.service.ts:418-449 | only an accepted heartbeat, a resume or a disconnect changes a tab; a held tab is kept while IN_PROGRESS; only a close before the deadline submits; the clock does not go back |
| `LifecycleTheorems.ChangesAreTableEdges` | backend/api/src/session/session-state-machine.ts:11-31 | a step changes the status along a pair that is no edge of the table iff it is the close of a DISCONNECTED session that is not past its deadline |
| `LifecycleTheorems.DisconnectedCloseLeavesTable` | backend/api/src/session/session.service.ts:579-613 | the exception occurs for every DISCONNECTED session not past its deadline |
| `LifecycleTheorems.InstantKeptIff` | backend/api/src/session/session.service.ts:673-683 | a row whose disconnect instant is null unless DISCONNECTED stays so under a step iff the step is no expiry or accepted close of that row while DISCONNECTED and no disconnect that reaches the limit |
| `LifecycleTheorems.CloseLeavesInstantSet` | backend/api/src/session/session.service.ts:606-613 | a run, for any limit of two or more and any staleness threshold, in which a stale session is disconnected and then closed: the instant stays set on the SUBMITTED row |
| `LifecycleTheorems.TerminalAbsorbs` | backend/api/src/session/session.service.ts:584-596 | a SUBMITTED, AUTO_SUBMITTED or CLOSED row is equal to itself after any further steps, duplicate deliveries included |
| `LifecycleTheorems.StepSpendsRemaining` | backend/api/src/session/session.service.ts:669-711 | the measure of remaining changes falls by at least one at each status change and never rises |
| `LifecycleTheorems.StatusChangesBounded` | backend/api/src/session/session.service.ts:660-740 | at most 2 * max(1, maxDisconnectCount) status changes of one session in any run from an empty store |
| `LifecycleTheorems.RemainingIsReached` | backend/api/src/session/session.service.ts:493-499 | from any IN_PROGRESS row the rest of that budget can be spent in full |
| `LifecycleTheorems.BoundIsReached` | backend/api/src/session/session.service.ts:673-683 | the bound is attained for every configuration |
| `LifecycleTheorems.DeadlineFixed` | backend/api/src/session/session.service.ts:362-377 | start and deadline never change after begin, over whole runs |
| `LifecycleTheorems.NoSubmissionAfterDeadline` | backend/api/src/session/session.service.ts:598-604 | an unfinished session past its deadline never becomes SUBMITTED in any continuation |
| `LifecycleTheorems.TabChangeNeedsReconnect` | backend/api/src/session/session.service.ts:426-449 | two accepted heartbeats from different tabs, the first non-empty, have a disconnect and later a resume strictly between them |
| `LifecycleTheorems.WaitingSurvives` | backend/api/src/queue/grace-window.processor.ts:34-41 | a DISCONNECTED session whose job is due at an instant or later is still DISCONNECTED after every run before that instant that does not close, resume or directly auto-submit it |
| `LifecycleTheorems.FullWindowIff` | backend/api/src/session/session.service.ts:724-734 | a freshly disconnected session outlasts every such run inside its resume window iff no grace job of an earlier disconnect is pending at that moment (or the window is empty) |
| `LifecycleTheorems.StaleJobCutsWindow` | backend/api/src/session/session.service.ts:724-734 | a concrete run with a five-minute window, both disconnects of rows the scan finds stale, in which a session one second offline is auto-submitted by the job of an earlier outage |
| `LifecycleTheorems.StepNeverEarly` | backend/api/src/session/session.service.ts:724-734 | every pending job and every logged expiry comes at least one full window after some logged disconnect of its session: kept by each step |
| `LifecycleTheorems.ExpiryNeverEarly` | backend/api/src/queue/grace-window.processor.ts:34-41 | the same over whole runs in which only the worker calls autoSubmit |
| `HeartbeatScan.HeartbeatService.FindStale` | backend/api/src/queue/heartbeat.service.ts:40-46 | the query answer lists every IN_PROGRESS row with a null or pre-cutoff heartbeat exactly once, and no other |
| `HeartbeatScan.HeartbeatService.ScanAndMarkStale` | backend/api/src/queue/heartbeat.service.ts:33-70 | the state afterwards is that of marking the stale sessions one after the other, and no session is stale any more |
| `HeartbeatScan.MarkAllEffect` | backend/api/src/queue/heartbeat.service.ts:58-69 | marking a duplicate-free list gives each listed row and grace job what marking it alone would, and leaves the rest |
| `HeartbeatScan.ScanEffect` | backend/api/src/queue/heartbeat.service.ts:33-70 | each stale session's count rises by one, every other row is unchanged, nothing stale remains and a second scan with the same cutoff is a no-op |
| `HeartbeatScan.QueryInFields` | backend/api/src/queue/heartbeat.service.ts:40-46 | the listed sessions are the IN_PROGRESS rows whose heartbeat is null or before the cutoff, in row fields |
| `HeartbeatScan.ScanInFields` | backend/api/src/queue/heartbeat.service.ts:33-70 | in row fields: a row that is not IN_PROGRESS or has a heartbeat at or after the cutoff is spared; a running row without one, or with an older one, is counted once more and runs no longer |
| `HeartbeatScan.ScanOrderIrrelevant` | backend/api/src/queue/heartbeat.service.ts:58-69 | rows and jobs after a scan do not depend on the order of the query answer |
| `HeartbeatScan.MarkAllIsRun` | backend/api/src/queue/heartbeat.service.ts:58-69 | a scan is a run of lifecycle steps, so the theorems about runs cover it |
| `HeartbeatScan.ScanKeepsInv` | backend/api/src/queue/heartbeat.service.ts:33-70 | the lifecycle invariant survives a scan |
| `ScoringService.ValidateDriveModuleWeights` | packages/shared-types/src/drive.ts:28-58 | sums the enabled core and bonus weights; valid iff core is exactly 100 and bonus at most 20; which error is reported |
| `ScoringService.CalculateModuleScores` | backend/api/src/session/session-scoring.service.ts:375-404 | both averaging modes, the 0.8 fallback for shares that sum to nothing, and the fallback pair for no answers |
| `ScoringService.CalculateCompositeScores` | backend/api/src/session/session-scoring.service.ts:409-432 | the loop's sums equal order-free sums over the answered, enabled modules, rounded |
| `ScoringService.CalculateSayDoConsistency` | backend/api/src/session/session-scoring.service.ts:437-499 | the response loop equals the specification of divergences; the three branches in the code's order |
| `ScoringTheorems.RoundMonotone` | backend/api/src/session/session-scoring.service.ts:254-256 | rounding to two decimals is monotone |
| `ScoringTheorems.RoundIsNear` | backend/api/src/session/session-scoring.service.ts:254-256 | rounding moves a value by at most half a hundredth |
| `ScoringLaws.RoundExactly` | backend/api/src/session/session-scoring.service.ts:254-256 | rounding gives n hundredths iff the value is at least half a hundredth below and less than half a hundredth above them |
| `ScoringTheorems.ClampBounds` | backend/api/src/session/session-scoring.service.ts:185 | recorded accuracies lie in [0, 1], and the clamp acts iff the raw value does not |
| `ScoringLaws.ClampIsNearest` | backend/api/src/session/session-scoring.service.ts:185 | the recorded accuracy is the nearest one in [0, 1] |
| `ScoringLaws.ModeDecides` | backend/api/src/session/session-scoring.service.ts:384-395 | a right answer with share 3 and a wrong one with share 1 score 0.75 iff the module is configured in difficulty mode, and 0.5 otherwise |
| `ScoringLaws.SharesNeeded` | backend/api/src/session/session-scoring.service.ts:386-394 | without any share the mode makes no difference |
| `ScoringTheorems.ModuleScoreWithin` | backend/api/src/session/session-scoring.service.ts:388-395 | module scores of clamped accuracies lie in [0, 1] after rounding: always in equal mode, and in difficulty mode when the share sum is not positive or negative shares stay below a 200th of it |
| `ScoringTheorems.ModuleScoreWithinIff` | backend/api/src/session/session-scoring.service.ts:388-395 | on given shares all clamped accuracies score in [0, 1] iff that condition holds |
| `ScoringTheorems.ModuleScoreMonotone` | backend/api/src/session/session-scoring.service.ts:388-395 | raising accuracies never lowers the module score: always in equal mode, and in difficulty mode when the share sum is not positive or no share is negative |
| `ScoringTheorems.RaisingNeverLowersIff` | backend/api/src/session/session-scoring.service.ts:388-395 | on given shares raising clamped accuracies never lowers the score iff that condition holds |
| `ScoringTheorems.NegativeShareLowers` | backend/api/src/session/session-scoring.service.ts:388-391 | for any shares with a positive sum and one negative share, two clamped answer lists of which the raised one scores less |
| `ScoringTheorems.NegativeShareExample` | backend/api/src/session/session-scoring.service.ts:388-391 | shares 2 and -1: one right answer of two scores 2, both right score 1 |
| `ScoringTheorems.FurtherAnswersNeverLowerIff` | backend/api/src/session/session-scoring.service.ts:388-395 | further clamped answers inside a module never lower its score iff it earned less than half a hundredth yet: of the number of answers in equal mode or without custom shares, of the share sum in difficulty mode, there with non-negative shares |
| `ScoringTheorems.AnySharesCanLower` | backend/api/src/session/session-scoring.service.ts:388-391 | in difficulty mode with shares of any sign, two further answers can lower any score |
| `ScoringTheorems.SecondAnswerLowers` | backend/api/src/session/session-scoring.service.ts:393-394 | one right MCQ answer gives 100 core points, a second one given wrong leaves 50 |
| `ScoringTheorems.UniformModuleScore` | backend/api/src/session/session-scoring.service.ts:388-395 | equal accuracies give that accuracy, whatever the shares, unless the fallback is in force |
| `ScoringTheorems.AllWrongScoresZeroIff` | backend/api/src/session/session-scoring.service.ts:391 | a module with no right answer scores zero iff the zero-share fallback is not in force |
| `ScoringTheorems.WrongAnswerScoresFallback` | backend/api/src/session/session-scoring.service.ts:389-391 | the fallback at work: one wrong answer with share 0 scores 0.8 |
| `ScoringTheorems.CompositeWithin` | backend/api/src/session/session-scoring.service.ts:409-432 | weights whose positive parts keep the limits and whose negative parts stay within half a hundredth give 0 <= core <= 100, 0 <= bonus <= 20, 0 <= total <= 120 for any subset of answered modules |
| `ScoringTheorems.CompositeWithinIff` | backend/api/src/session/session-scoring.service.ts:409-432 | all scores in [0, 1] keep the core and bonus limits iff the weights are such |
| `ScoringTheorems.ValidWeightsAreTame` | packages/shared-types/src/drive.ts:28-58 | weights that pass the check and are not negative are such |
| `ScoringTheorems.TotalIsExactSum` | backend/api/src/session/session-scoring.service.ts:426-429 | the third rounding never acts: total = core + bonus exactly |
| `ScoringLaws.CompositeIsTotal` | backend/api/src/session/session-scoring.service.ts:426-431 | the composite is the total, core and bonus together |
| `ScoringLaws.OneModuleComposite` | backend/api/src/session/session-scoring.service.ts:416-427 | one module gives the rounded product of score and weight as core, or of score and maximum as bonus, never both, and nothing when disabled |
| `ScoringLaws.WeightedAdds` | backend/api/src/session/session-scoring.service.ts:416-424 | scores of different modules add up before rounding |
| `ScoringLaws.CodingFallback` | backend/api/src/session/session-scoring.service.ts:398-401 | a session without answers has 85 of 100 core points when only CODING counts |
| `ScoringLaws.WeightCheckBoundary` | packages/shared-types/src/drive.ts:41-57 | a core and a bonus module pass the weight check iff the core weight is 100 and the bonus at most 20 |
| `ScoringTheorems.CompositeMonotone` | backend/api/src/session/session-scoring.service.ts:409-432 | raising module scores, or adding modules with non-negative scores, never lowers core, bonus or total |
| `ScoringTheorems.SessionScoresWithin` | backend/api/src/session/session-scoring.service.ts:375-432 | the bounds composed from clamped accuracies through both roundings, under those conditions on shares and weights |
| `ScoringTheorems.SessionScoresMonotone` | backend/api/src/session/session-scoring.service.ts:375-432 | raising accuracies of the answers given, on shares without the negative case above, and answering further modules once one is answered, never lowers a module score or the core, bonus or total score |
| `ScoringTheorems.FirstAnswerLowers` | backend/api/src/session/session-scoring.service.ts:398-401 | with nothing answered MCQ stands at 0.8; a first MCQ answer, given wrong, lowers the core score from 80 to 0 |
| `ScoringTheorems.FallbackComposite` | backend/api/src/session/session-scoring.service.ts:398-401 | a session without answers is credited with the rounded sum of 0.8 times the MCQ and 0.85 times the CODING weight, for core and for bonus |
| `ScoringTheorems.MoreModulesNeverLowerUnderIff` | backend/api/src/session/session-scoring.service.ts:381-401 | under given non-negative weights raising the accuracies given and answering further modules never lowers a score iff some module is answered or both those rounded sums are zero |
| `ScoringTheorems.MoreModulesNeverLowerIff` | backend/api/src/session/session-scoring.service.ts:381-401 | under all non-negative weights at once raising the accuracies given and answering further modules never lowers a score iff some module is answered |
| `ScoringTheorems.FullMarks` | packages/shared-types/src/drive.ts:41-57 | with validated weights, full marks in every enabled module give exactly 100 core points |
| `ScoringTheorems.OnlyEnabledModulesCount` | backend/api/src/session/session-scoring.service.ts:416-424 | scores of unconfigured or disabled modules change nothing |
| `ScoringTheorems.VarianceAtMostQuarter` | backend/api/src/session/session-scoring.service.ts:488-489 | the variance of any non-empty list in [0, 1] lies in [0, 1/4] |
| `ScoringTheorems.DeviationScoreRange` | backend/api/src/session/session-scoring.service.ts:487-492 | without self-assessments and with two or more modules the Say-Do score is in [0.5, 1] and the clamp at 0 never acts |
| `ScoringTheorems.DeviationScoreLowest` | backend/api/src/session/session-scoring.service.ts:487-492 | 0.5 is attained |
| `ScoringTheorems.SayDoWithin` | backend/api/src/session/session-scoring.service.ts:482-495 | the score lies in [0, 1] iff it is not taken from a negative composite; the other two branches always do |
| `ScoringTheorems.SessionSayDoWithin` | backend/api/src/session/session-scoring.service.ts:375-499 | composed from clamped accuracies through module and composite scores: in [0, 1] iff not taken from a negative composite, hence always under non-negative weights; in [0.5, 1] without self-assessments and with two or more modules |
| `ScoringTheorems.ClampActsIff` | backend/api/src/session/session-scoring.service.ts:483-485 | with self-assessments the clamp acts iff the mean divergence exceeds 1.005 |
| `ScoringLaws.DivergencesAdd` | backend/api/src/session/session-scoring.service.ts:447-477 | responses count one by one, in order |
| `ScoringLaws.UnsaidCountsNothing` | backend/api/src/session/session-scoring.service.ts:448-453 | a response without question, payload or number said does not count |
| `ScoringLaws.McqDivergence` | backend/api/src/session/session-scoring.service.ts:457-461 | said with full confidence, a right MCQ answer diverges by 0 and any other by 1 |
| `ScoringLaws.CodingDivergence` | backend/api/src/session/session-scoring.service.ts:462-465 | said with full confidence, code diverges by the share of failed tests of its last run, by 1 without tests or runs |
| `ScoringLaws.SqlDivergence` | backend/api/src/session/session-scoring.service.ts:466-469 | said with full confidence, a query diverges by 0 when its last run completed and by 1 otherwise |
| `ScoringLaws.OtherDivergence` | backend/api/src/session/session-scoring.service.ts:470-472 | in other modules what is said is the divergence |
| `ScoringLaws.PercentSaid` | backend/api/src/session/session-scoring.service.ts:454 | a number above one is a percentage |
| `ScoringLaws.SayDoReadings` | backend/api/src/session/session-scoring.service.ts:482-495 | the mean divergence, the deviation and the composite as a fraction, each on plain numbers |
| `Dashboard.PearsonCorrelation` | backend/api/src/admin/dashboard.service.ts:276-300 | the five running sums give the closed form; null iff fewer than two scores or a zero denominator |
| `Dashboard.Histogram` | backend/api/src/admin/dashboard.service.ts:258-270 | each bucket counts the scores with its index; a negative score makes the request fail |
| `Dashboard.SortInPlace` | backend/api/src/admin/dashboard.service.ts:393 | the array ends as the sorted permutation of itself |
| `Dashboard.CountOutliers` | backend/api/src/admin/dashboard.service.ts:389-402 | the in-place sort and both filters equal the specification on the old contents; short lists are left alone |
| `DashboardTheorems.CauchySchwarz` | backend/api/src/admin/dashboard.service.ts:294-297 | for all score lists both factors of the radicand are non-negative and their product bounds the square of the numerator |
| `DashboardTheorems.SpreadZeroIff` | backend/api/src/admin/dashboard.service.ts:295-297 | a factor is zero iff its list is constant |
| `DashboardTheorems.CorrelationWithin` | backend/api/src/admin/dashboard.service.ts:298-299 | the reported value is in [-1, 1]; null iff there are at most one score or one list is constant |
| `DashboardTheorems.CorrelationSymmetric` | backend/api/src/admin/dashboard.service.ts:294-299 | exchanging the two lists changes nothing |
| `DashboardTheorems.CoSpreadIsScaledDeviation` | backend/api/src/admin/dashboard.service.ts:287-294 | the numerator is n times the sum of the products of the deviations from the two means |
| `DashboardTheorems.CorrelationValue` | backend/api/src/admin/dashboard.service.ts:294-299 | a reported value is a whole number of hundredths, and den times it lies within 0.005 den of that numerator, den being the root of the product of the two spreads written with deviations |
| `DashboardTheorems.CorrelationExample` | backend/api/src/admin/dashboard.service.ts:276-300 | 1, 2, 3 against 1, 3, 2 is reported as 0.5 |
| `DashboardTheorems.LinearCorrelation` | backend/api/src/admin/dashboard.service.ts:294-299 | lists on a line are reported as exactly 1 or -1 |
| `DashboardTheorems.HistogramConserves` | backend/api/src/admin/dashboard.service.ts:204-211 | for non-negative scores the ten counts sum to the number of scores |
| `Dashboard.BucketMeaning` | backend/api/src/admin/dashboard.service.ts:268 | bucket b below the last holds exactly the scores from b to b + 1 tenths |
| `DashboardTheorems.PointsBucketAgreesIff` | backend/api/src/admin/dashboard.service.ts:205-211 | a stored composite of 0 to 120 points lands in the bucket its points call for iff it is below 0.1 or at least 90 |
| `DashboardTheorems.StoredCompositeMisread` | backend/api/src/admin/dashboard.service.ts:205-211 | a composite the scoring service stores, 80 points, falls into the last bucket instead of the ninth |
| `DashboardTheorems.PassAgreesIff` | backend/api/src/admin/dashboard.service.ts:213-216 | the pass count reads a composite in points as its 70 per cent threshold calls for iff it is below 0.7 or at least 70 |
| `DashboardTheorems.OutlierBounds` | backend/api/src/admin/dashboard.service.ts:392-401 | at most n/4 fast and n-1-3n/4 slow outliers, and the fences do not cross, so no duration is both |
| `DashboardTheorems.OutliersOrderBlind` | backend/api/src/admin/dashboard.service.ts:392-401 | the counts depend on the bag of durations only |
| `DashboardTheorems.OutliersAre` | backend/api/src/admin/dashboard.service.ts:392-401 | the counts are the durations more than one and a half interquartile distances below the quartile at n/4 or above the one at 3n/4 of the sorted list; none below four durations |
| `SqlCompare.Compare` | backend/api/src/sql/result-comparator.service.ts:69-145 | the nested loops with early exits decide the relation Same for all inputs, missing rows and keys included |
| `SqlValues.SpelledReads` | backend/api/src/sql/result-comparator.service.ts:22-31 | a text spelled as optional minus sign, digits and optional point with digits is numeric and reads as its signed place value |
| `SqlValues.NumericIsSpelled` | backend/api/src/sql/result-comparator.service.ts:25 | every numeric text is so spelled |
| `SqlValues.NormalizeMeans` | backend/api/src/sql/result-comparator.service.ts:12-34 | what a value normalises to, told from the value: null for null and undefined, the number or spelled decimal, the trimmed text, the boolean |
| `SqlValues.AlikeIff` | backend/api/src/sql/result-comparator.service.ts:124-131 | two cell values match iff both are absent, or one number, or one text, or one boolean |
| `SqlValues.AlikeByKind` | backend/api/src/sql/result-comparator.service.ts:12-34 | the cases kind by kind: booleans and numbers only if equal, a text and a number iff the trimmed text spells it, other texts iff equal when trimmed |
| `SqlValues.RowsMatchByKey` | backend/api/src/sql/result-comparator.service.ts:117-137 | rows with one key list match iff they are alike under every key |
| `SqlValues.OneCellSameIff` | backend/api/src/sql/result-comparator.service.ts:69-140 | two results of one row and one column are the same iff their values are alike |
| `Strings.TrimCuts` | backend/api/src/sql/result-comparator.service.ts:23 | trimming cuts white space off both ends, all of it and nothing else |
| `Strings.LowerCodes` | backend/api/src/sql/result-comparator.service.ts:80-81 | lower-casing moves the capitals by 32 codes and leaves every other character |
| `Strings.SpaceCodes` | backend/api/src/drive/drive-shuffler.service.ts:26 | white space by character code |
| `SqlCompareTheorems.SameIff` | backend/api/src/sql/result-comparator.service.ts:69-140 | with one key list throughout and equally many rows or true counts: true iff the declared counts, the column bags up to case and the bags of normalised rows are equal |
| `SqlCompareTheorems.EqualBagsPass` | backend/api/src/sql/result-comparator.service.ts:69-140 | equal bags and equal declared counts always pass, whatever the keys |
| `SqlCompareTheorems.SameIffGrids` | backend/api/src/sql/result-comparator.service.ts:116-138 | for rows of one width and true counts: true iff the sorted columns and the grids of values in sorted-key order are equal, with no key in common |
| `SqlCompareTheorems.SameIsReflexive` | backend/api/src/sql/result-comparator.service.ts:69-140 | every result is the same as itself |
| `SqlCompareTheorems.SameIsEquivalence` | backend/api/src/sql/result-comparator.service.ts:69-140 | on results of one row width with true counts it is reflexive, symmetric and transitive |
| `SqlCompareTheorems.OnlyBagsMatter` | backend/api/src/sql/result-comparator.service.ts:40-63 | on either side only the bag of normalised rows matters, for all results |
| `SqlCompareTheorems.RowOrderIrrelevant` | backend/api/src/sql/result-comparator.service.ts:40-63 | permuting the rows of either side never changes the verdict, for all results |
| `SqlCompareTheorems.SymmetricIffEqualWidths` | backend/api/src/sql/result-comparator.service.ts:121-137 | for true counts: the verdict is the same either way round for all results of row widths m and n iff m = n |
| `SqlCompareTheorems.NarrowerIsAsymmetric` | backend/api/src/sql/result-comparator.service.ts:121-137 | for any two different widths a pair that passes one way only, of the shape a database driver returns unless the smaller width is zero |
| `SqlCompareTheorems.DriverResultsAreSymmetric` | backend/api/src/sql/result-comparator.service.ts:121-137 | results keyed by their own column names compare the same either way round when they have equally many distinct column names |
| `SqlCompareTheorems.AsymmetricWithoutSharedKeys` | backend/api/src/sql/result-comparator.service.ts:121-137 | a repeated column name as candidate passes against two spellings of it, and not the other way round |
| `SqlCompareTheorems.RespellingIff` | backend/api/src/sql/result-comparator.service.ts:121-137 | a row and its respelling up to case compare the same for all values iff both spellings sort the columns in the same order |
| `SqlCompareTheorems.RespellingExample` | backend/api/src/sql/result-comparator.service.ts:121-137 | a, b against a, B: the same columns up to case, in a different sort order |
| `SqlCompareTheorems.NormalizeIdempotent` | backend/api/src/sql/result-comparator.service.ts:12-34 | normalising a normalised value changes nothing, for every value |
| `SqlCompareTheorems.TrailingZero` | backend/api/src/sql/result-comparator.service.ts:22-31 | texts that differ in outer white space and any number of trailing zeros after the decimal point normalise alike, signed or not |
| `Shuffler.GroupByModule` | backend/api/src/drive/drive-shuffler.service.ts:74-80 | the pools are the drive's questions filtered by type, in order |
| `Shuffler.GroupByLevel` | backend/api/src/drive/drive-shuffler.service.ts:92-101 | the three difficulty pools, unknown difficulties under medium |
| `Shuffler.SelectNew` | backend/api/src/drive/drive-shuffler.service.ts:117-126 | the inner loop equals the fold that keeps an item with a new id and a new hash |
| `Shuffler.ShuffleQuestionsForCandidate` | backend/api/src/drive/drive-shuffler.service.ts:57-147 | the nested loops equal the specification by modules and difficulty segments |
| `ShufflerOrder.PoolIs` | backend/api/src/drive/drive-shuffler.service.ts:92-101 | a module's pools hold its easy questions, those called neither easy nor hard, and its hard ones, case ignored and a missing difficulty being medium |
| `ShufflerOrder.SegmentOrder` | backend/api/src/drive/drive-shuffler.service.ts:103-127 | a segment of n new hashes adds pool[(((seed + 1009 k) mod 10007 + 37 d) mod n + i) mod n] as its i-th item |
| `ShufflerOrder.ShuffleOrder` | backend/api/src/drive/drive-shuffler.service.ts:86-140 | a drive with distinct hashes is met module by module in name order, each easy, medium, hard, each segment from its seeded start on |
| `ShufflerOrder.SeedMatters` | backend/api/src/drive/drive-shuffler.service.ts:103-115 | two easy questions of one module keep their order for an even seed below 10007 and change it for an odd one |
| `ShufflerTheorems.PickIsFresh` | backend/api/src/drive/drive-shuffler.service.ts:121-125 | the id test is implied by the hash test: a segment contributes exactly its entries with new hashes |
| `ShufflerTheorems.SegmentHashes` | backend/api/src/drive/drive-shuffler.service.ts:109-127 | a segment contributes its hashes minus all earlier segments' hashes, each once, for every seed |
| `ShufflerTheorems.ShuffleCoversHashes` | backend/api/src/drive/drive-shuffler.service.ts:75-140 | every candidate gets one question per distinct hash of the drive and no hash twice |
| `ShufflerTheorems.SeedsAgree` | backend/api/src/drive/drive-shuffler.service.ts:103-115 | any two seeds give equally many questions and the same set of hashes |
| `ShufflerTheorems.DistinctHashesPermute` | backend/api/src/drive/drive-shuffler.service.ts:109-140 | the output is a permutation of the drive's questions iff their hashes are distinct |
| `ShufflerTheorems.CollisionDropsQuestion` | backend/api/src/drive/drive-shuffler.service.ts:117-126 | two different questions with one pre-image: every candidate gets only one of them |
| `ShufflerTheorems.ModuleIndexesCountUp` | backend/api/src/drive/drive-shuffler.service.ts:130-139 | moduleIndex counts 0, 1, 2, ... within each module type, for any drive |
| `ShufflerTheorems.PreImageInvariant` | backend/api/src/drive/drive-shuffler.service.ts:22-48 | letter case and white-space runs of the prompt never reach the hash pre-image, with or without options, nor does the order of the options |
| `ShufflerTheorems.ReorderedOptions` | backend/api/src/drive/drive-shuffler.service.ts:29-33 | any permutation of the option list keeps the pre-image |
| `ShufflerTheorems.PreImagesAlikeIff` | backend/api/src/drive/drive-shuffler.service.ts:46-48 | for any two questions of a module: equal pre-images iff the prompts' words and the extras are equal, or the longer prompt continues the shorter at a colon and its rest stands before the other's extras |
| `ShufflerTheorems.PreImageSeparates` | backend/api/src/drive/drive-shuffler.service.ts:46-48 | without colons in module names and normalised prompts: equal pre-images iff module, prompt words and extras are equal |
| `ShufflerTheorems.OptionsAlikeIff` | backend/api/src/drive/drive-shuffler.service.ts:29-33 | any two option lists give equal extras iff their sorted normalised options, cut again at the bars, are the same pieces |
| `ShufflerTheorems.CodesAlikeIff` | backend/api/src/drive/drive-shuffler.service.ts:37-44 | two starter codes give equal extras iff their lower-case words, run together, are the same text |
| `ShufflerTheorems.QueriesAlikeIff` | backend/api/src/drive/drive-shuffler.service.ts:34-36 | two expected queries give equal extras iff their lower-case words are the same |
| `ShufflerTheorems.PreImageSeparatesOptions` | backend/api/src/drive/drive-shuffler.service.ts:21-49 | without colons in prompts and bars in options: equal pre-images iff module, prompt words and bags of normalised options are equal |
| `ShufflerTheorems.ColonCollision` | backend/api/src/drive/drive-shuffler.service.ts:46-48 | the prompt x:y with options z, w and the prompt x with options y:z, w share a pre-image, for all x, y, z, w without capitals and spaces and in sorted order |
| `ShufflerTheorems.BarCollision` | backend/api/src/drive/drive-shuffler.service.ts:33 | the options x|y, z and the options x, y|z share a pre-image, for any prompt and x, y, z without capitals and spaces and in sorted order |
| `ShufflerTheorems.CodeCollision` | backend/api/src/drive/drive-shuffler.service.ts:37-44 | starter codes that differ by a space anywhere after the first character share a pre-image |
| `ShufflerTheorems.QueryCollision` | backend/api/src/drive/drive-shuffler.service.ts:34-36 | expected queries that differ in letter case only share a pre-image |
| `Proctoring.ProctoringService.FindRecentDuplicateEvent` | backend/api/src/proctoring/proctoring.service.ts:118-138 | finds the first stored event of the session and type closer than the cooldown, none iff there is none |
| `Proctoring.ProctoringService.CreateEvent` | backend/api/src/proctoring/proctoring.service.ts:143-192 | answer and stored rows: refusals change nothing; a clash updates only clip and upload status of one row; otherwise one row is appended |
| `Proctoring.CooldownTable` | backend/api/src/proctoring/proctoring.service.ts:12-27 | the cooldown of every event type, in milliseconds |
| `Proctoring.RefusedIff` | backend/api/src/proctoring/proctoring.service.ts:143-162 | a submission is refused for a missing or abandoned session or a taken id, and then nothing changes |
| `Proctoring.MergedIff` | backend/api/src/proctoring/proctoring.service.ts:164-174 | a submission is merged iff a stored event of its session and type lies less than the cooldown before or after it, and adds a row iff it is neither merged nor refused |
| `Proctoring.NewRowSays` | backend/api/src/proctoring/proctoring.service.ts:176-191 | a new row says what was submitted; its status defaults to uploaded with a clip and failed without |
| `Proctoring.LateClip` | backend/api/src/proctoring/proctoring.service.ts:164-173 | a merged submission with a clip stores it as uploaded on the clashing row; one without changes nothing |
| `Proctoring.RecordKeepsValid` | backend/api/src/proctoring/proctoring.service.ts:164-191 | each submission keeps cooldown spacing and unique ids |
| `Proctoring.ReachableSpaced` | backend/api/src/proctoring/proctoring.service.ts:118-138 | after any submissions, stored events of one session and type are at least the cooldown apart |
| `Proctoring.RowsStay` | backend/api/src/proctoring/proctoring.service.ts:167-191 | no row ever leaves, moves or changes its time, type, session or id |
| `Proctoring.AcceptedStaysCovered` | backend/api/src/proctoring/proctoring.service.ts:164-191 | whatever follows, an accepted submission keeps a stored event of its session and type within the cooldown |
| `Proctoring.AtMostTwoClashes` | backend/api/src/proctoring/proctoring.service.ts:131-134 | a submission clashes with at most two stored events |
| `Proctoring.ReachableWindowBound` | backend/api/src/proctoring/proctoring.service.ts:12-27 | any window of length L holds at most floor(L / c) + 1 stored events of a type with cooldown c |
| `Rake.RakeExtractor.CandidatesIn` | backend/api/src/ai-prompting/ai-prompting-guardrails.ts:34-54 | the loop with its running phrase equals splitting the cleaned words at stop words and dropping empty runs |
| `Rake.RakeExtractor.CandidatesOf` | backend/api/src/ai-prompting/ai-prompting-guardrails.ts:32-55 | the candidates of all sentences, in order |
| `Rake.RakeExtractor.CountPhrase` | backend/api/src/ai-prompting/ai-prompting-guardrails.ts:62-66 | the inner loop adds each word's occurrences, and occurrences times the other words, to the two tables |
| `Rake.RakeExtractor.CountWords` | backend/api/src/ai-prompting/ai-prompting-guardrails.ts:57-72 | after both passes the tables hold each word's frequency and its degree with itself included, over exactly the words that occur |
| `Rake.RakeExtractor.AddFrequencies` | backend/api/src/ai-prompting/ai-prompting-guardrails.ts:70-72 | the second pass, in any key order, adds each frequency once |
| `Rake.RakeExtractor.ScoreWords` | backend/api/src/ai-prompting/ai-prompting-guardrails.ts:75-78 | scores are degree over frequency for exactly the words that occur |
| `Rake.RakeExtractor.ScorePhrases` | backend/api/src/ai-prompting/ai-prompting-guardrails.ts:81-94 | one entry per distinct phrase text, in order of first appearance, with the sum of its word scores |
| `Rake.RakeExtractor.Extract` | backend/api/src/ai-prompting/ai-prompting-guardrails.ts:25-102 | the whole procedure equals the specification Keywords, blank texts included |
| `Rake.SentenceEnds` | backend/api/src/ai-prompting/ai-prompting-guardrails.ts:29 | the character codes that end a sentence |
| `Rake.SentencesConserve` | backend/api/src/ai-prompting/ai-prompting-guardrails.ts:29 | cutting into sentences loses the ending characters only, one cut for each |
| `Rake.CleanKeeps` | backend/api/src/ai-prompting/ai-prompting-guardrails.ts:40 | cleaning keeps exactly the small letters and digits, in order |
| `Rake.CleanedAdds` | backend/api/src/ai-prompting/ai-prompting-guardrails.ts:38-41 | words are cleaned one by one and those that clean to nothing are dropped |
| `Rake.OneRun` | backend/api/src/ai-prompting/ai-prompting-guardrails.ts:37-54 | words without a stop word make one run |
| `Rake.CutAtStop` | backend/api/src/ai-prompting/ai-prompting-guardrails.ts:43-50 | a stop word ends the run before it and starts the next |
| `Rake.KeywordsIgnoreCase` | backend/api/src/ai-prompting/ai-prompting-guardrails.ts:29 | letter case makes no difference to the keywords |
| `Rake.ChunksConserveWords` | backend/api/src/ai-prompting/ai-prompting-guardrails.ts:37-54 | the candidates of a sentence, laid end to end, are its cleaned words without the stop words, in order |
| `Rake.CandidatesAreClean` | backend/api/src/ai-prompting/ai-prompting-guardrails.ts:38-54 | candidates are non-empty lists of non-empty alphanumeric words that are no stop words |
| `Rake.SelfCount` | backend/api/src/ai-prompting/ai-prompting-guardrails.ts:69-72 | counting the others plus the frequency is counting the whole phrase |
| `Rake.CountsPerPhrase` | backend/api/src/ai-prompting/ai-prompting-guardrails.ts:61-67 | per phrase a word gains its occurrences in frequency and as many times the phrase's length in degree |
| `Rake.ScoreTimesFrequency` | backend/api/src/ai-prompting/ai-prompting-guardrails.ts:75-78 | a word's score times its frequency is its degree |
| `Rake.PhraseScoreAdds` | backend/api/src/ai-prompting/ai-prompting-guardrails.ts:89-93 | a phrase's score is the sum of its words' scores |
| `Rake.CountsConserved` | backend/api/src/ai-prompting/ai-prompting-guardrails.ts:58-72 | frequencies sum to the candidates' lengths and degrees to their squared lengths |
| `Rake.WordScoreWithin` | backend/api/src/ai-prompting/ai-prompting-guardrails.ts:75-78 | each word score lies between 1 and the longest candidate's length |
| `Rake.TextSeparates` | backend/api/src/ai-prompting/ai-prompting-guardrails.ts:85-87 | the joined text determines the phrase, so text duplicates are phrase duplicates |
| `Rake.RankedIsFaithful` | backend/api/src/ai-prompting/ai-prompting-guardrails.ts:80-97 | the ranking holds every distinct candidate once, highest score first |
| `Rake.DistinctStep` | backend/api/src/ai-prompting/ai-prompting-guardrails.ts:84-87 | a candidate is listed at its first appearance only, after those before it |
| `Rake.LimitIs` | backend/api/src/ai-prompting/ai-prompting-guardrails.ts:99-100 | a third of the candidates rounded up, at least three and at most eight |
| `Rake.EqualScoresKeepOrder` | backend/api/src/ai-prompting/ai-prompting-guardrails.ts:97 | candidates of one score stay in the order of their first appearance |
| `Rake.KeywordsAreDistinctCandidates` | backend/api/src/ai-prompting/ai-prompting-guardrails.ts:99-101 | the answer has the size the limit gives, at most 8 entries, no duplicate, and only texts of candidates |
| `Rake.KeywordsOutrankTheRest` | backend/api/src/ai-prompting/ai-prompting-guardrails.ts:96-101 | no candidate left out scores above any keyword returned |
| `QuestionServices.QuestionService.OnModuleInit` | backend/api/src/question/question.service.ts:16-48 | the start-up loop files exactly the debugging questions, and their links, under DEBUGGING |
| `QuestionServices.QuestionService.Create` | backend/api/src/question/question.service.ts:88-112 | refusal or one new row at version 1 without folder |
| `QuestionServices.QuestionService.Update` | backend/api/src/question/question.service.ts:195-258 | refusals; copy-on-write of a linked question with the old row archived; in-place edit otherwise; which row is answered |
| `QuestionTheorems.UpdateWrites` | backend/api/src/question/question.service.ts:205-255 | on both paths the written row says what was submitted and keeps the rest, keywords extracted for AI_PROMPTING; a copied row is only archived |
| `QuestionTheorems.UpdateRefused` | backend/api/src/question/question.service.ts:196-216 | an update is refused exactly for a missing question, content that does not fit, or a taken id |
| `QuestionTheorems.CreateWrites` | backend/api/src/question/question.service.ts:89-108 | a new question says what was submitted, with the defaults for the rest |
| `QuestionTheorems.StartRefiles` | backend/api/src/question/question.service.ts:21-43 | the start-up pass refiles a question and its links iff module, tag or text says debugging, and changes nothing else |
| `QuestionServices.QuestionService.Remove` | backend/api/src/question/question.service.ts:260-275 | archives the row and nothing else |
| `QuestionServices.DriveService.Create` | backend/api/src/drive/drive.service.ts:119-155 | the new drive is linked to exactly the requested published questions at their live versions |
| `QuestionServices.DriveService.Duplicate` | backend/api/src/drive/drive.service.ts:588-618 | the copy's links carry live versions and no shares |
| `QuestionServices.DriveService.ShareMap` | backend/api/src/drive/drive.service.ts:828-835 | the loop over assignments builds the share map |
| `QuestionServices.DriveService.SaveQuestions` | backend/api/src/drive/drive.service.ts:796-866 | the three refusals, and replacement of the drive's links |
| `QuestionServices.DriveService.UpdateModules` | backend/api/src/drive/drive.service.ts:501-567 | the in-use refusal, and removal of links of modules not enabled |
| `QuestionServices.DriveService.Delete` | backend/api/src/drive/drive.service.ts:679-780 | the drive and its links go, nothing else |
| `QuestionTheorems.CreateHoldsPublished` | backend/api/src/drive/drive.service.ts:131-152 | a new drive holds exactly the requested published questions; no question and no other link changes |
| `QuestionTheorems.SavedRow` | backend/api/src/drive/drive.service.ts:852-862 | a saved link carries the live version, the share named for it, and DEBUGGING for debugging questions, else the question's module |
| `QuestionTheorems.SaveRefused` | backend/api/src/drive/drive.service.ts:801-821 | saving is refused exactly for a missing drive, a locked partner drive, or when every invite link is out |
| `QuestionTheorems.ModulesRefused` | backend/api/src/drive/drive.service.ts:502-516 | changing modules is refused exactly for a missing drive or once an invite link is out |
| `QuestionTheorems.ModulesKept` | backend/api/src/drive/drive.service.ts:556-568 | links of enabled modules and of other drives stay as they are, all others go |
| `QuestionTheorems.DeleteTakesOwnRows` | backend/api/src/drive/drive.service.ts:771-779 | a deleted drive takes its own links and no others |
| `QuestionTheorems.StepGrows` | backend/api/src/question/question.service.ts:213-257 | every step keeps every row and raises its version whenever it edits its content; a linked row changes at most its status and, in the start-up pass, its module type |
| `QuestionTheorems.StepKeepsLinks` | backend/api/src/drive/drive.service.ts:141-152 | every writer keeps each link's snapshot equal to its question's live version, drive and question present, module type in agreement |
| `QuestionTheorems.StepKeepsFolders` | backend/api/src/question/question.service.ts:230 | new versions point at their family's root and roots stay roots |
| `QuestionTheorems.ReachableStoresAgree` | backend/api/src/drive/drive.service.ts:846-863 | both invariants hold in every store reached by any interleaving of question edits, start-ups and drive writers |
| `QuestionTheorems.VersionPinsBody` | backend/api/src/question/question.service.ts:242-255 | over any run rows persist, versions never fall and an unchanged version means an unchanged body |
| `QuestionTheorems.SnapshotPinsContent` | backend/api/src/drive/drive.service.ts:609-617 | two links of one question with equal snapshots, in any two reachable stores of a run, stand for the same content |
| `QuestionTheorems.LinkedQuestionIsFrozen` | backend/api/src/question/question.service.ts:213-241 | while some drive holds a question its version and content do not change |
| `QuestionTheorems.UpdateEffect` | backend/api/src/question/question.service.ts:218-257 | on both paths the written row stays in the family with the next version, and every other row keeps its family and version |
| `QuestionTheorems.NewVersionIsNewestIff` | backend/api/src/question/question.service.ts:218-257 | on both paths the written row outranks all other rows of its family iff the updated row was the newest |
| `QuestionTheorems.VersionsStayDistinctIff` | backend/api/src/question/question.service.ts:218-257 | in a family of distinct version numbers an update, on either path, keeps them distinct iff no row of the family already has the next number |
| `QuestionTheorems.SecondUpdateCollides` | backend/api/src/question/question.service.ts:218-241 | two updates of a linked row in succession give its family two rows with the same version number |
| `QuestionTheorems.UnlinkedEditCollides` | backend/api/src/question/question.service.ts:241-257 | so does an edit in place of a row that was updated while linked and is held by no drive any more |
| `QuestionTheorems.ReachableCollision` | backend/api/src/question/question.service.ts:195-258 | a reachable store with that repetition: create, link, update, delete the drive, edit in place |
| `QuestionTheorems.SaveIsExact` | backend/api/src/drive/drive.service.ts:841-865 | afterwards the drive holds exactly the named existing questions, other drives' links are equal, and saving again changes nothing |
| `QuestionTheorems.SharesNamed` | backend/api/src/drive/drive.service.ts:831-835 | a question gets a share iff some assignment names one |
| `QuestionTheorems.LastShareWins` | backend/api/src/drive/drive.service.ts:831-835 | the last assignment that names a share decides it |
| `QuestionTheorems.DuplicateCopiesRows` | backend/api/src/drive/drive.service.ts:609-617 | in agreeing stores the copy's links equal the source's but for the shares, snapshots included, and no other link changes |

## Left out

- Interleavings inside one service method: two requests that both read a row before either writes it.
- Job failures, retries and failed jobs that keep their id; the repeatable-job registration; the local fake queue, whose grace handler is registered under another name than the enqueued job.
- Status writers outside the lifecycle service: SQL and coding runs, reviewer decisions and roster removal. The absorption, bound and table theorems speak of lifecycle steps only.
- `startSession` apart from the row it inserts: tokens, reuse of an existing session, response building.
- Scoring, sandbox and storage side effects of close and auto-submit: no-ops on the protocol state.
- Floating point: numbers are reals, `Math.round` is the floor of the value plus a half, and `Math.sqrt` is a non-negative parameter whose square is the radicand.
- The evaluators that produce raw accuracies, confidences and rationales; `CalculateSayDoConsistency` reads a response's "say", its usability and its execution outcome.
- DeviationScoreRange: covers the case without self-assessments; with them ClampActsIff says exactly when the clamp acts.
- FurtherAnswersNeverLowerIff: requires shares that are not negative in difficulty mode; without that, AnySharesCanLower says further answers can lower every score.
- CompositeMonotone: requires weights that are not negative; with a negative weight a raised score lowers the sum before rounding.
- RespellingIff: speaks of results of one row, because the row order of larger ones depends on the order on canonical rows, which is a parameter.
- An ISO date text is any text with no leading space and a final Z; the calendar is not part of this model.
- PreImageSeparatesOptions: needs prompts free of colons and options free of bars, because the code's pre-image does not separate questions with them; PreImagesAlikeIff and OptionsAlikeIff hold without.
- PreImageInvariant: lower-casing covers ASCII letters, because locale and Unicode case tables are not part of this model.
- The order of JavaScript strings by UTF-16 units; strings are sequences of characters with their code order.
- SHA-256 and the seed it yields: the hash is an arbitrary function and the seed an arbitrary number.
- ShuffleCoversHashes: requires that rows of one question carry one content, as rows joined to the question table do.
- Object-valued options, expected queries and starter code in the hash; a difficulty named after a property every object inherits.
- SameIff: requires one shared key list, because rows with different keys are compared by position; SameIffGrids covers rows of one width with any keys. The order on canonical rows is a parameter that must separate distinct rows, because locale collation of JSON text is not part of this model.
- Rows holding objects, arrays or NaN, and rows that are not objects, in the result comparison.
- Histogram scores below zero make the source fail; the model answers none in that case.
- Averages, pass rates and the remaining dashboard figures.
- The stop-word table is a parameter, so the keyword results hold for every table; a candidate word spelled "constructor" reads an inherited property in the source.
- The guardrail checks by regular expression beside the keyword extraction.
- Session resolution in proctoring, which may create a session: its outcome is a parameter. `uploadEvidenceAndCreateEvent` rewrites a stored event's time, so the spacing results speak of `createEvent` only.
- The order in which the database returns stored events: insertion order; AtMostTwoClashes bounds what another order could pick.
- `createFromTemplate`, which copies the template's own snapshot that in-place edits can outdate, is outside the snapshot invariant.
- Question content checks and prompt tests are parameters; bulk upload and the automatic creation of questions elsewhere insert rows without a folder, as `Create` does.
- Invites, schedules, role templates and audit rows of drives; a drive row holds only what the link writers read, and may change arbitrarily between steps.
- Controllers, guards, the frontend, seed scripts and all external services.
