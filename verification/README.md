# Volunteer portal: verified core

This project models the stateful core of a volunteer portal and proves what its parts promise, for every
input, every run and every interleaving. One module stands for one component; the database is an explicit
state. Code that changes tables step by step is a class whose methods carry the source's branches and are
proved equal to a step function, and whose contracts also state the new tables outright; the theorems are about
runs of those steps, in terms of what was delivered, asked for and stored.

- `Common.dfy` - ids, options, and facts about sequences and sets.
- `Outbox.dfy`, `OutboxProtocol.dfy` - the outbox drain loop; then any number of drainers at once.
- `AuditLog.dfy` - the producer and the worker of the audit log over all eight outboxes.
- `Streaks.dfy`, `Points.dfy`, `Leaderboard.dfy` - week arithmetic and the streak machine, the points engine
  over any deliveries, and the ranking built from its ledger.
- `PrerequisiteGraph.dfy`, `CourseAuthoring.dfy`, `Learning.dfy`, `LearningRuns.dfy`, `CourseCompletable.dfy` -
  cycle detection, building a course, a learner's calls, what every run of them keeps, and which courses can
  be finished at all. `WatchHistory.dfy`, `QuizHistory.dfy` - which calls are let in and what they leave, told on
  the calls, questions and rows themselves.
- `Shifts.dfy`, `ShiftProtocol.dfy`, `ShiftCalls.dfy` - the transactions on shifts and applications, their
  interleavings with reads made before each transaction, and what one call by itself does to the rows.
- `Roles.dfy`, `RoleRuns.dfy` - granting, revoking, erasure and the retention sweep behind the policy check,
  then their interleavings.
- `Feed.dfy` - keyset pagination, standing still and while the tables change.
- `Text.dfy`, `Csv.dfy` - UTF-16 text and numerals; the hours export and an RFC 4180 reader for it.
- `PdfReport.dfy`, `PdfReader.dfy`, `PdfText.dfy`, `PdfRoundTrip.dfy`, `PdfLines.dfy` - the hand-written PDF,
  an independent reader following sections 7.3.4.2, 7.5.4 and 7.5.5 of ISO 32000-1, and the round trip.

Check everything with `dafny verify dfyconfig.toml`.

## Where the code and its description differ

The model follows the code. Each point is a theorem with its exact condition.

- The drain loop says it rejects only when the first query fails (packages/outbox/src/drainOutbox.ts:91-94).
  Marking an unhandled kind runs outside the `try`, so a failure there abandons the rest of the batch
  (`Outbox.ThrowsExactlyWhen`).
- The ledger is said to let several consumers drain one outbox (packages/outbox/src/drainOutbox.ts:19-29). It
  prevents repeated effects, but the shared `processed_at` makes consumers miss events
  (`OutboxProtocol.FanOutExactlyWhen`).
- A withdrawal trusts a read made before its transaction and is not guarded by it. The counter agrees with
  the accepted applications exactly as long as no withdrawal commits on a stale read
  (`ShiftProtocol.CounterAgreesExactlyWhen`, with a run in `StaleWithdrawalHappens`).
- Adding a module accepts any attempt limit, zero and negative ones included, so not every course that can be
  built can be finished (`CourseCompletable.CompletableExactlyWhen`, `CourseAuthoring.ZeroAttemptsNeverCompletes`).
  A stored video length below zero blocks a module in the same way.
- The retention sweep is described as an erasure triggered by policy
  (apps/web/src/modules/identity/application/sweepInactivePersons.ts:33-36). It writes a revocation time without
  a revoker, which the table's check refuses, so it stops at the first person who holds a role
  (`Roles.SweepWorksExactlyWhen`, `Roles.IdentityStore.SweepInactivePersons`).
- Erasure revokes roles so that no active grant stays behind. A later grant does not look at its subject's
  status, so it can give an anonymized person a role (`RoleRuns.AnonymizedHoldNothingExactlyWhen`).
- The PDF is encoded one byte per unit. The long dash in the hours report's own title
  (apps/web/src/server/volunteering/pdf.ts:124) is above 255 and is lost; some other units turn into
  parentheses or backslashes. Lines come back exactly under the condition of
  `PdfLines.ReportReadsBackExactlyWhen`. Offsets of ten billion or more break the 20-byte entries
  (`PdfReader.EntryWidth`).
- Rebuilding a leaderboard for an empty member list leaves the window's old rows in place
  (`Leaderboard.LeaderboardStore.RebuildLeaderboardSnapshot`).

## Model

| member | source | states |
|---|---|---|
| Outbox.BatchTakesOldest | packages/outbox/src/drainOutbox.ts:116-123 | A batch is in id order, repeats nothing and skips no older unprocessed event. |
| Outbox.Database.DeliverOne | packages/outbox/src/drainOutbox.ts:136-189 | The whole new state and the one counter that rises, case by case: no handler (marked and counted as unhandled, or thrown when the mark fails), an abort (rolled back, counted as failed, at best the attempt noted), already in the ledger (marked, counted as duplicate, no handler), and newly handled. |
| Outbox.Database.DrainOutbox | packages/outbox/src/drainOutbox.ts:96-193 | A drain of the oldest batch delivers its events one by one until a throw; without one, its four counters are the four parts of the batch, told by the tables it started from. |
| Outbox.ThrowsExactlyWhen | packages/outbox/src/drainOutbox.ts:138-142 | After the first query a drain rejects if and only if marking some event without a handler fails; a failing handler never makes it reject. |
| Outbox.BatchCounts | packages/outbox/src/drainOutbox.ts:109-192 | Alone and without a throw, every event of the batch is counted once, and exactly the committed ones leave the unprocessed set. |
| Outbox.EachCountedOnce | packages/outbox/src/drainOutbox.ts:138-188 | Unless it throws, a batch counts each event in its own column: without a handler, failed, handled but already in the ledger, or newly handled. |
| Outbox.BatchFrame | packages/outbox/src/drainOutbox.ts:172-189 | Events keep their content and rows outside the batch do not change; a committed event is marked with one attempt more, a failed one has one attempt more or none. |
| Outbox.BatchLedger | packages/outbox/src/drainOutbox.ts:147-171 | The ledger grows by exactly the handled, committed, not yet recorded events in batch order, and `drained` counts them. |
| Outbox.RunAlone | packages/outbox/src/drainOutbox.ts:109-192 | The four counters of a run add up to min(batch size, unprocessed), and the unprocessed set shrinks by all but the failed ones. |
| Outbox.RunsEmptyTheOutbox | packages/outbox/src/drainOutbox.ts:96-193 | If nothing fails, n events are gone after ceil(n / batch size) runs and not before. |
| OutboxProtocol.ExactlyOnceEffects | packages/outbox/src/drainOutbox.ts:13-47 | In every interleaving of drainers with stale batches, failing handlers, aborts, crashes and resets of `processed_at`, each consumer's committed tables are the fold of its handlers over its ledger in commit order, and no id is in that ledger twice. |
| OutboxProtocol.DrainIsASequenceOfSteps | packages/outbox/src/drainOutbox.ts:96-193 | A whole call of the drain loop, from any point of any run, is one poll and its deliveries, so what holds of every interleaving holds of it. |
| OutboxProtocol.SharedEventIsMissed | packages/outbox/src/drainOutbox.ts:136-142 | Whenever two consumers poll one outbox and one of them handles some kind, there is a run in which the other one takes such an event and it is marked processed without ever reaching the first. |
| OutboxProtocol.FanOutExactlyWhen | packages/outbox/src/drainOutbox.ts:19-29 | Consumers that share an outbox are sure to see everything they handle if and only if no two of them poll it or those that do handle nothing: the ledger alone does not give the fan-out described in the header. |
| OutboxProtocol.SingleConsumerHandlesAll | packages/outbox/src/drainOutbox.ts:116-170 | With one consumer, once everything is processed its ledger holds each event it handles exactly once and its tables are the fold over them. |
| AuditLog.AuditStore.RecordAuditEvent | packages/audit/src/recordAuditEvent.ts:130-145 | Appends one unprocessed audit event to the caller's outbox and changes nothing else. |
| AuditLog.AuditStore.CopyOne | apps/worker/src/tasks/audit-log-writer.ts:124-171 | One event's transaction: the log row is inserted unless the id is there, the source row is marked, and an abort leaves only the noted attempt. |
| AuditLog.AuditBatchTakesOldest | apps/worker/src/tasks/audit-log-writer.ts:96-104 | A batch is the oldest unprocessed audit events in id order, at most a hundred, and nothing else. |
| AuditLog.AuditStore.DrainSchema | apps/worker/src/tasks/audit-log-writer.ts:85-175 | Copies that batch; the number it returns is by how much the unprocessed audit events of the schema have become fewer. |
| AuditLog.AuditStore.AuditLogWriter | apps/worker/src/tasks/audit-log-writer.ts:177-184 | Drains every schema; the total it returns is what all the outboxes together no longer owe, and without faults each schema has made progress. |
| AuditLog.EveryRunMakesProgress | apps/worker/src/tasks/audit-log-writer.ts:96-184 | A run without faults shortens the unprocessed audit events of each of the eight schemas by min(100, their number), oldest first, and each one marked has its log row. |
| AuditLog.CopyAllRow | apps/worker/src/tasks/audit-log-writer.ts:108-171 | In a drain a row outside the batch is untouched, a committed one is marked and logged, an aborted one at most has an attempt more. |
| AuditLog.RunKeepsInv | apps/worker/src/tasks/audit-log-writer.ts:126-153 | Over any interleaving of producers, worker transactions and resets: the log only grows, each row is the one derived from the event of its id, and every processed audit event has its row. |
| AuditLog.QuiescentLogIsComplete | apps/worker/src/tasks/audit-log-writer.ts:96-153 | Once every audit event is processed, the log holds exactly one row per recorded audit event, with that event's content. |
| AuditLog.RecordedIsLogged | packages/audit/src/recordAuditEvent.ts:130-145 | Whatever a use case recorded is, field by field, what the log row of that id says after any later run. |
| AuditLog.DrainIsASequenceOfSteps | apps/worker/src/tasks/audit-log-writer.ts:85-175 | A whole schema drain is a sequence of the protocol's steps, so the run theorems cover it. |
| Calendar.StartOfIsoWeekIsItsMonday | apps/web/src/modules/gamification/domain/streakRules.ts:78-84 | The week start is a Monday at midnight UTC, and the instant lies in the seven days it opens. |
| Calendar.WeekStartsAreWholeWeeksApart | apps/web/src/modules/gamification/domain/streakRules.ts:78-86 | Every week start is a whole number of weeks from 5 January 1970. |
| Calendar.WeeksBetweenIsExact | apps/web/src/modules/gamification/domain/streakRules.ts:89-91 | The rounded quotient is exactly the difference of week numbers. |
| Calendar.WeeksBetweenAdds | apps/web/src/modules/gamification/domain/streakRules.ts:89-91 | Week differences add up over any intermediate instant. |
| Calendar.SameWeekExactlyWhen | apps/web/src/modules/gamification/domain/streakRules.ts:89-91 | The difference is zero exactly for two instants of one Monday-to-Sunday window. |
| Streaks.StreakIsClosedForm | apps/web/src/modules/gamification/domain/streakRules.ts:103-171 | After any activities in any order, the state is the closed form over the strict running maxima of their weeks: the first freezes' worth of gaps is forgiven, each later gap resets, the longest length is the best over all prefixes, and the status is that of the last record. |
| Streaks.FreezesAreConserved | apps/web/src/modules/gamification/domain/streakRules.ts:145-170 | Freezes available and used always add up to the maximum. |
| Streaks.KindTellsTheGap | apps/web/src/modules/gamification/domain/streakRules.ts:124-170 | The outcome is told by the weeks: unchanged unless a new week is opened, extended without a gap, frozen for a forgiven gap, broken for an unforgiven one. |
| Streaks.StoringLosesNothing | apps/web/src/modules/gamification/application/updateStreak.ts:37-82 | Truncating the stored activity date to a day changes no later outcome. |
| Streaks.OldActivityIsNoOp | apps/web/src/modules/gamification/domain/streakRules.ts:124-128 | An activity no later than the stored week leaves the state unchanged. |
| Streaks.WeekMovesForward | apps/web/src/modules/gamification/domain/streakRules.ts:103-171 | The stored week never moves back and ends at or past the activity's week. |
| Points.GamificationStore.RecordPointsForEvent | apps/web/src/modules/gamification/application/recordPointsForEvent.ts:53-102 | A new ledger key adds one row and its points to the balance and publishes exactly when positive; a taken key changes nothing and returns the balance as it is. |
| Points.GamificationStore.UpdateStreakRow | apps/web/src/modules/gamification/application/updateStreak.ts:29-112 | Persists and publishes exactly what the streak machine decides, and writes nothing when the outcome is unchanged. |
| Points.GamificationStore.ConsumeInboundEvent | apps/web/src/modules/gamification/application/consumeInboundEvent.ts:72-98 | An event with a new dedupe key adds its row: ten points an hour to the nearest point for hours, 25 for a module, 100 for a course; then feeds its own streak, and announces award before streak. Otherwise nothing changes. |
| Points.GamificationStore.AdminAdjustPoints | apps/web/src/modules/gamification/application/adminAdjustPoints.ts:32-68 | A manual adjustment goes through the same ledger path with its own key. |
| PointsRuns.BalanceIsLedgerSum | apps/web/src/modules/gamification/application/recordPointsForEvent.ts:53-102 | After any run every balance is the sum of its person's ledger rows and no ledger key repeats. |
| PointsRuns.LedgerHoldsEachCreditOnce | apps/web/src/modules/gamification/application/consumeInboundEvent.ts:72-98 | The ledger holds exactly the set of distinct things delivered or adjusted. |
| PointsRuns.BalanceIsWorthOfDistinct | apps/web/src/modules/gamification/application/recordPointsForEvent.ts:59-85 | Each balance is the worth of the set of distinct deliveries and adjustments, whatever was repeated, reordered or forgotten; what each is worth is said by the next two rows. |
| PointsRuns.LedgerPaysEachOnce | apps/web/src/modules/gamification/application/handleHoursApproved.ts:15-33 | Every row pays for a delivery or adjustment of the run and every one of those is paid by exactly one row: its person, its key, hours at a sixth of a point a minute to the nearest point, modules 25, courses 100, adjustments as asked. |
| PointsRuns.BalanceByKind | apps/web/src/modules/gamification/domain/pointsConfig.ts:10-21 | A balance is 25 for each distinct module, 100 for each distinct course, each adjustment once, and for n distinct hour entries six times the rest is within 3n of their total minutes. |
| PointsRuns.DeliveryOrderIsIrrelevant | apps/web/src/modules/gamification/application/consumeInboundEvent.ts:72-98 | Two runs over the same deliveries and adjustments give the same balances, in whatever order and however often they came. |
| PointsRuns.RedeliveryChangesNothing | apps/web/src/modules/gamification/application/recordPointsForEvent.ts:59-79 | Delivering an event again at any later point, even after its dedupe row was lost, changes no ledger row, balance or streak and publishes nothing. |
| PointsRuns.StreakRowIsClosedForm | apps/web/src/modules/gamification/application/updateStreak.ts:48-82 | Every stored streak row is the closed form over the dates delivered for it, redeliveries included. |
| PointsRuns.UpdatePublishes | apps/web/src/modules/gamification/application/updateStreak.ts:84-109 | What a streak activity publishes, told by the weeks of its dates: nothing, the new length, the freezes left, or the lost length. |
| PointsRuns.HourPointsStayClose | apps/web/src/modules/gamification/domain/pointsConfig.ts:19-21 | Six times the hour points of n entries stays within 3n of their total minutes. |
| Leaderboard.LeaderboardStore.Standings | apps/web/src/modules/gamification/application/rebuildLeaderboardSnapshot.ts:41-53 | The sorted standings hold each distinct member once with its points in the half-open window. |
| Leaderboard.FirstOfTieGroup | apps/web/src/modules/gamification/application/rebuildLeaderboardSnapshot.ts:60-67 | Where the points first drop to a value, the index equals the number of members with strictly more points. |
| Leaderboard.LeaderboardStore.CreateRows | apps/web/src/modules/gamification/application/rebuildLeaderboardSnapshot.ts:60-81 | The one-pass rank loop appends, for each distinct member and nobody else, a row with its window points and one plus the number of members ahead. |
| Leaderboard.LeaderboardStore.RebuildLeaderboardSnapshot | apps/web/src/modules/gamification/application/rebuildLeaderboardSnapshot.ts:31-83 | Replaces exactly the window's rows by correct ones; an empty member list leaves every row, stale ones included. |
| Leaderboard.KeptFacts | apps/web/src/modules/gamification/application/rebuildLeaderboardSnapshot.ts:56-58 | The delete keeps exactly the rows of other scopes and windows. |
| Leaderboard.RebuildKeepsKeysUnique | apps/web/src/modules/gamification/application/rebuildLeaderboardSnapshot.ts:55-82 | A rebuild never breaks uniqueness of (scope, person, start of period). |
| Leaderboard.WindowsAdd | apps/web/src/modules/gamification/application/rebuildLeaderboardSnapshot.ts:41-49 | The totals of adjacent windows add up to the total of their union. |
| Leaderboard.OutsideCountsNothing | apps/web/src/modules/gamification/application/rebuildLeaderboardSnapshot.ts:43-46 | Rows before the start, or at or after the end, count for nothing. |
| Leaderboard.FullWindowIsBalance | apps/web/src/modules/gamification/application/rebuildLeaderboardSnapshot.ts:41-49 | After any run of the points engine, a window that covers every entry gives exactly the balance projection. |
| PrerequisiteGraph.WouldCreateCycle | apps/web/src/modules/training/domain/prerequisiteGraph.ts:19-34 | The stack-and-visited search terminates on every edge map, cyclic ones included, and answers true exactly when both ends are one module or the target is reachable. |
| PrerequisiteGraph.BatchedEdgesKeepAcyclic | apps/web/src/modules/training/application/addModule.ts:111-150 | Edges out of one module, each checked against the old graph only, leave it acyclic together if and only if each passes alone. |
| CourseAuthoring.BuildEdgeMap | apps/web/src/modules/training/application/addModule.ts:112-122 | The loop over stored rows builds the map that lists each module's prerequisites in row order. |
| CourseAuthoring.EdgesOfMember | apps/web/src/modules/training/application/addModule.ts:112-122 | A prerequisite is in that map exactly when its row is stored. |
| CourseAuthoring.CourseStore.CheckQuiz | apps/web/src/modules/training/application/addModule.ts:90-99 | Refuses exactly a passing score outside 1 to 100, first, or a question without a correct choice. |
| CourseAuthoring.CourseStore.AnyCycle | apps/web/src/modules/training/application/addModule.ts:111-128 | For a brand-new module the cycle check never fires. |
| CourseAuthoring.CourseStore.InsertQuestions | apps/web/src/modules/training/application/addModule.ts:162-180 | Stores every question and choice in order with the requested flags, each with an id of its own. |
| CourseAuthoring.CourseStore.AddModule | apps/web/src/modules/training/application/addModule.ts:77-195 | Accepts exactly requests whose prerequisites exist, quiz is acceptable and sequence is free; otherwise says which check failed and changes nothing; stores the module, its edges and its quiz as asked. |
| CourseAuthoring.AddedModuleKeepsWellFormed | apps/web/src/modules/training/application/addModule.ts:77-150 | Every accepted request keeps the course well formed, so any sequence of them builds a graph without cycles. |
| CourseAuthoring.ZeroAttemptsNeverCompletes | apps/web/src/modules/training/application/addModule.ts:153-160 | A required module with an attempt limit of zero, which the code accepts, makes the course impossible to complete. |
| Learning.Enrollment.constructor | apps/web/src/modules/training/application/enrollInCourse.ts:59-86 | Enrolling seeds one untouched progress row per module of the course. |
| Learning.Grade | apps/web/src/modules/training/application/submitQuizAttempt.ts:89-118 | The answer loop accepts exactly the sheets that answer each question of the quiz once with one of its choices, and counts the correct ones. |
| Learning.ScoreIsNearest | apps/web/src/modules/training/application/submitQuizAttempt.ts:120 | The score is the nearest whole percentage of correct answers, halves going up, and at most 100. |
| Learning.Enrollment.RecordProgress | apps/web/src/modules/training/application/recordProgress.ts:61-134 | A call is answered and stores what the four watch rows below say of this step; a refused call changes nothing. |
| WatchHistory.WatchAnswers | apps/web/src/modules/training/application/recordProgress.ts:61-106 | Every answer with the case it is for, in the order of the checks. |
| WatchHistory.LetInExactlyWhen | apps/web/src/modules/training/application/recordProgress.ts:61-106 | A watch call is let in exactly for the enrolled learner, on a module of the course, within range and video, and on a first advance once every prerequisite is completed. |
| WatchHistory.CallStores | apps/web/src/modules/training/application/recordProgress.ts:108-121 | A call let in on a module not completed raises percentage and position to what was watched; any other call leaves both alone. |
| WatchHistory.OthersStay | apps/web/src/modules/training/application/recordProgress.ts:112-128 | No call on another module changes a module, and no answers change how far it was watched. |
| WatchHistory.StoredIsFurthest | apps/web/src/modules/training/application/recordProgress.ts:94-128 | After any calls on a fresh enrollment, each stored percentage and position is the furthest that a call let in reached before the module was completed, or zero. |
| Learning.Enrollment.SubmitQuiz | apps/web/src/modules/training/application/submitQuizAttempt.ts:61-161 | A call is answered and stores what the next row says of this step; a refused call changes nothing. |
| QuizHistory.QuizAnswers | apps/web/src/modules/training/application/submitQuizAttempt.ts:61-161 | Every answer with the case it is for; an accepted sheet adds one attempt with the nearest percentage of right answers, passed exactly at or above the passing score, and a failed one is announced. |
| QuizHistory.SheetMeans | apps/web/src/modules/training/application/submitQuizAttempt.ts:89-118 | A sheet is valid exactly when it answers each question once with one of that question's choices, and right answers are those whose choice is flagged. |
| Learning.Enrollment.EvaluateModuleAndCourse | apps/web/src/modules/training/application/moduleCompletion.ts:44-98 | Completes the module when watched and passed, then evaluates the course only if the module is completed. |
| Learning.Enrollment.CompleteCourseIfEligible | apps/web/src/modules/training/application/moduleCompletion.ts:107-196 | Marks the enrollment, publishes and issues a certificate at most once, when the completed required modules reach the required ones. |
| LearningRuns.EvaluateMeans | apps/web/src/modules/training/application/moduleCompletion.ts:52-97 | A module is completed once, when watched to 90 percent and, with a quiz, passed; only then is the course looked at. |
| LearningRuns.CompleteCourseMeans | apps/web/src/modules/training/application/moduleCompletion.ts:122-193 | Nothing until every required module is completed, and there is one; then status, course event and, if enabled, certificate and its event, in this order, once. |
| LearningRuns.PrerequisitesMetMeans | apps/web/src/modules/training/application/recordProgress.ts:98-106 | Comparing counts of completed prerequisites is the same as asking for each of them. |
| LearningRuns.CourseReadyMeans | apps/web/src/modules/training/application/moduleCompletion.ts:126-140 | The two counts compare as required exactly when there is a required module and all are completed. |
| LearningRuns.RunKeepsInvariant | apps/web/src/modules/training/application/moduleCompletion.ts:44-196 | Any sequence of calls keeps the invariant, and nothing a learner has earned is taken back. |
| LearningRuns.EnrollmentHistory | apps/web/src/modules/training/application/moduleCompletion.ts:44-196 | After any calls on a fresh enrollment: done exactly when there is a required module and all are completed; one event per completed module, one course event, one certificate if enabled; no started module has an open prerequisite; a module is completed exactly when watched to 90 percent and, if it has a quiz, passed. |
| CourseCompletable.PerfectSheetPasses | apps/web/src/modules/training/application/submitQuizAttempt.ts:89-121 | Every stored quiz has a valid answer sheet that passes. |
| CourseCompletable.CompletableExactlyWhen | apps/web/src/modules/training/application/recordProgress.ts:94-128 | A fresh enrollment has a finite run to completion if and only if the course has a required module and every module needed for it can be attempted. |
| Shifts.VolunteeringStore.Apply | apps/web/src/modules/volunteering/application/applyToShift.ts:78-113 | The insert goes through exactly when the person has no active application for the shift by then. |
| Shifts.VolunteeringStore.Accept | apps/web/src/modules/volunteering/application/decideApplication.ts:118-173 | A pending application becomes accepted with the counter up by one if the count is below capacity, and waitlisted otherwise; if it is no longer pending everything, the increment included, is undone. |
| Shifts.VolunteeringStore.Decline | apps/web/src/modules/volunteering/application/decideApplication.ts:183-230 | Commits exactly when the application still has the status it was read with. |
| Shifts.VolunteeringStore.Waitlist | apps/web/src/modules/volunteering/application/decideApplication.ts:232-277 | Commits exactly when the application is still pending. |
| Shifts.VolunteeringStore.Cancel | apps/web/src/modules/volunteering/application/cancelShift.ts:61-113 | On a shift still scheduled: resets the counter, declines every active application with one event each, and cancels; otherwise nothing. |
| Shifts.VolunteeringStore.Withdraw | apps/web/src/modules/volunteering/application/withdrawApplication.ts:48-133 | The whole new tables: withdrawn, a place freed on the strength of the earlier read, and given to the longest waiting exactly if one waits and the count after the release is below capacity. |
| ShiftCalls.ApplyAlone | apps/web/src/modules/volunteering/application/applyToShift.ts:52-113 | With nothing in between, applying gets in exactly for a scheduled shift that has not started and where the person has no active application. |
| ShiftCalls.AcceptAlone | apps/web/src/modules/volunteering/application/decideApplication.ts:88-174 | An accept on a pending application takes a place if one is free and training is done, otherwise waitlists; on any other it is refused. |
| ShiftCalls.DeclineOrWaitlistAlone | apps/web/src/modules/volunteering/application/decideApplication.ts:88-105 | Declining works exactly on pending and waitlisted applications, waitlisting on pending ones, and neither moves the counter. |
| ShiftCalls.CancelAlone | apps/web/src/modules/volunteering/application/cancelShift.ts:47-98 | Cancelling works exactly on a scheduled shift without approved hours, and declines everybody active on it. |
| ShiftCalls.WithdrawAlone | apps/web/src/modules/volunteering/application/withdrawApplication.ts:38-133 | Withdrawing works exactly for the applicant of an active application. |
| ShiftCalls.AcceptCommits | apps/web/src/modules/volunteering/application/decideApplication.ts:119-171 | However stale its read, the commit of an accept leaves a pending application accepted if and only if the count is below capacity at that commit, and waitlisted otherwise. |
| ShiftCalls.WithdrawCommits | apps/web/src/modules/volunteering/application/withdrawApplication.ts:51-133 | The commit of a withdrawal frees a place by what it read, and promotes the longest waiting if and only if one waits and the count after the release is below capacity. |
| ShiftProtocol.EveryInterleaving | apps/web/src/modules/volunteering/application/decideApplication.ts:88-174 | In every interleaving of stale reads and transactions, withdrawals included: counters stay within capacity, nobody has two active applications for a shift, and no application is accepted twice. |
| ShiftProtocol.WithdrawAgreesExactlyWhen | apps/web/src/modules/volunteering/application/withdrawApplication.ts:48-83 | A withdrawal keeps the counter equal to the accepted applications if and only if its read of accepted or not is still true. |
| ShiftProtocol.CounterAgreesExactlyWhen | apps/web/src/modules/volunteering/application/withdrawApplication.ts:48-83 | The counter agrees with the accepted applications all along a run if and only if no withdrawal in it commits on a stale read. |
| ShiftProtocol.CounterAgreesWithoutWithdrawals | apps/web/src/modules/volunteering/application/cancelShift.ts:61-98 | In every interleaving of applying, deciding and cancelling the counter is the number of accepted applications. |
| ShiftProtocol.StaleWithdrawalHappens | apps/web/src/modules/volunteering/application/withdrawApplication.ts:48-83 | A six-step run in which an accept between a withdrawal's read and its write leaves the counter one too high. |
| Roles.IdentityStore.GrantRole | apps/web/src/modules/identity/application/grantRole.ts:48-154 | Each outcome with its exact condition, in the order of the checks; a key already held is reused; a new row, its event and its audit record are all that changes. |
| Roles.IdentityStore.RevokeRole | apps/web/src/modules/identity/application/revokeRole.ts:29-94 | Revokes exactly an active assignment the caller may revoke, by setting its revocation columns and appending one event and one audit record. |
| Roles.IdentityStore.RequestErasure | apps/web/src/modules/identity/application/requestErasure.ts:83-152 | Self or an admin anonymizes a person not yet anonymized, and every active role of theirs is revoked in the same step. |
| Roles.IdentityStore.SweepInactivePersons | apps/web/src/modules/identity/application/sweepInactivePersons.ts:38-90 | The sweep stops with an error at the first stale person who still holds an active role and anonymizes exactly the ones before. |
| Roles.SweepWorksExactlyWhen | apps/web/prisma/migrations/20260810202935_add_identity_aggregates/migration.sql:223-228 | Because the sweep writes no revoker, the table's check lets it anonymize a person if and only if they hold no active role; erasure always passes it. |
| Roles.CanExactlyWhen | packages/authz/src/can.ts:29-53 | Granting and revoking pass exactly for an active caller who is a global org admin, or leads the very chapter of a mentor or volunteer assignment; any other status fails first. |
| Roles.MayEraseExactlyWhen | packages/authz/src/rules.ts:204-206 | Erasure is allowed exactly to an active caller who is the person or a global org admin. |
| RoleRuns.AuthorityIsOld | packages/authz/src/rules.ts:91-101 | In every reachable state whoever may grant or revoke led that chapter at the start, and only for the delegable roles. |
| RoleRuns.DelegationIsConfined | packages/authz/src/rules.ts:160-175 | With no active org admin at the start, no interleaving of checks and commits of grants, revocations and erasures, sweeps and status changes makes one; every new row was granted by a starting lead of its chapter for mentor or volunteer, and every old row is unchanged or was revoked by such a lead or by its erased subject. |
| RoleRuns.EveryRunIsSound | apps/web/src/modules/identity/application/grantRole.ts:121-141 | In every interleaving at most one assignment is active per subject, role and scope, the table's checks hold, and no grant or revocation is announced or audited twice. |
| RoleRuns.GrantAlone | apps/web/src/modules/identity/application/grantRole.ts:48-111 | With nothing in between, a grant adds exactly its row, event and audit record when well scoped, allowed, not held yet and for a known person; else nothing. |
| RoleRuns.RevokeAlone | apps/web/src/modules/identity/application/revokeRole.ts:29-80 | A revocation fills the two columns of exactly one active row the caller may manage; else nothing. |
| RoleRuns.EraseAlone | apps/web/src/modules/identity/application/requestErasure.ts:69-152 | An erasure anonymizes the person and revokes all they hold when the caller may; else nothing. |
| RoleRuns.AnonymizedHoldNothingExactlyWhen | apps/web/src/modules/identity/application/requestErasure.ts:143-152 | A step keeps anonymized persons without active roles if and only if it is not a grant that commits for one of them. |
| RoleRuns.GrantToAnonymizedHappens | apps/web/src/modules/identity/application/grantRole.ts:48-81 | A grant to an anonymized person goes through: nothing looks at the subject's status. |
| Feed.OrderGoesOn | apps/web/src/modules/community/application/feedRead.ts:69-78 | What the query selects below any id of its order is the rest of that order. |
| Feed.PageBounds | apps/web/src/modules/community/application/feedRead.ts:67-97 | A page shows, in strictly descending order, exactly the visible rows from its cursor down to the cursor it hands out. |
| Feed.FollowReadsTheFeed | apps/web/src/modules/community/application/feedRead.ts:67-123 | Following the cursors terminates, and for any limit the pages concatenate to the visible rows of the scope in descending id order. |
| Feed.FollowShowsExactly | apps/web/src/modules/community/application/feedRead.ts:91-97 | Every visible entry of the feed is shown once, and nothing else: no gap, no repeat, no row of another scope. |
| Feed.PagesNeeded | apps/web/src/modules/community/application/feedRead.ts:67-86 | The number of pages is the number of selected rows over the clamped limit, rounded up, and one for an empty feed. |
| Feed.SessionNeverRepeats | apps/web/src/modules/community/application/feedRead.ts:74-86 | However the tables change between requests, no entry is shown twice and none out of order. |
| Feed.SessionMissesNothing | apps/web/src/modules/community/application/feedRead.ts:80-86 | In a session that reaches its end, an entry visible at every request is seen, whatever came and went between pages. |
| Feed.SessionShowsOnlyVisible | apps/web/src/modules/community/application/feedRead.ts:88-97 | Whatever is shown belongs to the feed asked for and was visible, with that very content, when its page was read. |
| Feed.NewerRowsChangeNothingBelow | apps/web/src/modules/community/application/feedRead.ts:69-86 | Rows inserted with ids at or above the cursor change neither the pages still to come nor their number. |
| Csv.FieldReadsBack | apps/web/src/server/volunteering/csv.ts:35-41 | A printed field, with any mix of commas, quotes, CR and LF, reads back as its text and nothing after it is consumed. |
| Csv.QuotedExactlyWhen | apps/web/src/server/volunteering/csv.ts:35-41 | A field is quoted exactly when it holds a quote, a comma, a line feed or a carriage return. |
| Csv.HeaderNames | apps/web/src/server/volunteering/csv.ts:21-32 | The ten column names in their order. |
| Csv.ExportReadsBack | apps/web/src/server/volunteering/csv.ts:62-65 | A reader by section 2 of RFC 4180 gets back exactly the header and the field texts of every record. |
| Csv.ColumnsHoldTheirFields | apps/web/src/server/volunteering/csv.ts:43-59 | Every record has under each header name the field of that name. |
| Csv.HundredthsReadBack | apps/web/src/server/volunteering/csv.ts:44-52 | The hours column reads back as exactly the rounded hundredths. |
| Csv.HoursColumnIsClose | apps/web/src/server/volunteering/csv.ts:44 | The hours column is within half a hundredth of an hour of the minutes. |
| PdfReport.Chunk | apps/web/src/server/volunteering/pdf.ts:30-37 | The slicing loop yields the pages of the recursive definition, one empty page for no lines. |
| PdfReport.FillBodies | apps/web/src/server/volunteering/pdf.ts:63-79 | Every slot of the object table is empty when written and none is left empty; slot k holds the body of object k + 1. |
| PdfReport.BuildTextReportPdf | apps/web/src/server/volunteering/pdf.ts:52-111 | The loop that appends objects and advances the cursor produces the specified bytes: each recorded offset is where that object starts. |
| PdfReader.EntryWidth | apps/web/src/server/volunteering/pdf.ts:93-98 | A cross-reference line is 20 bytes long exactly while its offset has at most ten digits. |
| PdfReader.StartXrefReads | apps/web/src/server/volunteering/pdf.ts:92-105 | The number on the last line before the end mark is the offset of the table. |
| PdfReader.TableReads | apps/web/src/server/volunteering/pdf.ts:92-108 | At that offset a reader finds the table, its entry count, the head of the free list and the entries. |
| PdfReader.RootReads | apps/web/src/server/volunteering/pdf.ts:99-105 | The trailer follows the last entry, gives the table's size and names object 1 as the root. |
| PdfReader.XrefLandsOnObject | apps/web/src/server/volunteering/pdf.ts:81-108 | Following `startxref` and the ten digits of the k-th 20-byte entry lands exactly on `k 0 obj` and that object's body, for every k. |
| PdfText.EscapeIsUnitwise | apps/web/src/server/volunteering/pdf.ts:26-28 | The three replacement passes together escape each backslash and parenthesis once. |
| PdfText.LiteralReadsBack | apps/web/src/server/volunteering/pdf.ts:26-28 | A literal-string reader by section 7.3.4.2 of ISO 32000-1 gets an escaped line back, its line breaks read as LF. |
| PdfText.OneBreakExactly | apps/web/src/server/volunteering/pdf.ts:26-28 | Reading line breaks as LF leaves a line as it is exactly when it has no carriage return. |
| PdfRoundTrip.StreamReadsBack | apps/web/src/server/volunteering/pdf.ts:75-78 | `/Length` is the byte count: the reader cuts out exactly the stream. |
| PdfRoundTrip.PageReadsBack | apps/web/src/server/volunteering/pdf.ts:39-45 | Reading a page's content stream yields its lines in order. |
| PdfRoundTrip.PrologueIs | apps/web/src/server/volunteering/pdf.ts:39-44 | Text starts in ten-point type on fourteen-point lines, 54 points from the left and 738 from the bottom. |
| PdfRoundTrip.ContentsReadBack | apps/web/src/server/volunteering/pdf.ts:71-73 | A letter-sized page object with the font of object 3 leads to its content stream. |
| PdfRoundTrip.KidsReadBack | apps/web/src/server/volunteering/pdf.ts:63-66 | The page tree lists the page objects in page order and counts them. |
| PdfRoundTrip.Latin1Document | apps/web/src/server/volunteering/pdf.ts:81-110 | Encoding the whole text to bytes is encoding each object's body in an unmoved layout, whatever the lines hold. |
| PdfLines.ChunksKeepTheLines | apps/web/src/server/volunteering/pdf.ts:30-37 | The pages together are the lines, in order, and there is at least one page. |
| PdfLines.PagesAreFull | apps/web/src/server/volunteering/pdf.ts:20-25 | Every page but the last holds 48 lines, and the last no more. |
| PdfLines.ReportReadsBack | apps/web/src/server/volunteering/pdf.ts:52-111 | A report over lines of bytes, read from `startxref` through the page tree to the last string, gives the lines back in order. |
| PdfLines.WideUnitsAreLost | apps/web/src/server/volunteering/pdf.ts:110 | A line with a unit above 255 is never read back, because the encoding keeps only low bytes. |
| PdfLines.ReportReadsBackExactlyWhen | apps/web/src/server/volunteering/pdf.ts:52-111 | A report under ten billion bytes reads back as the very lines it was built from if and only if every unit is at most 255 and no line has a carriage return. |

## Left out

- Authorization other than the role rules: `assertVolunteeringAuthority`, `assertTrainingAuthority` and the other actions of the policy table are one-line membership tests before the modelled steps.
- Database isolation below the transaction: each transaction is one atomic step that may also abort; unique keys, checks and conditional updates are guards inside it.
- Clocks, new ids and randomness are parameters; ids are natural numbers because only their equality and order are observed, so a reused id is excluded where a key would refuse it.
- Network, storage and rendering: queues and rescheduling, object stores, certificate numbers, certificate rendering after completion and its own five-object PDF writer.
- Outbox.Database.DeliverOne: a handler is a total function of the event and the consumer's own tables; a handler that fails is the environment's choice to abort, and effects outside the database are not modelled. Log output is left out.
- AuditLog.RunKeepsInv: the worker is the only drainer of the outboxes; any other consumer of the same outbox would mark audit events processed as unhandled (OutboxProtocol.SharedEventIsMissed shows the mechanism).
- AuditLog.RecordedIsLogged: before and after state and metadata are opaque texts; JSON encoding itself is not modelled.
- Learning.Enrollment.RecordProgress: one call is one atomic step; interleaved calls can write an older progress row back, so monotone progress is claimed for atomic calls only.
- Learning.Enrollment.SubmitQuiz: the stored answers and the read of the module status after the transaction are left out; the second can only turn a committed attempt into an error.
- Learning.ScorePercent: an exact rational rounded half up, not binary floating point.
- Points.ComputeHoursApprovedPoints: likewise exact; so is Csv.HourHundredths.
- CourseCompletable.CompletableExactlyWhen: the module set is fixed after enrollment; a module added later has no progress row.
- CourseAuthoring.CourseStore.AddModule: titles, prompts, labels and the audit record are left out; the unique sequence number is checked at the insert.
- Points.GamificationStore.ConsumeInboundEvent: badges, the ledger's reason text and the reason check of a manual adjustment are left out.
- Calendar.WeeksBetweenIsExact: dates are unbounded integers of milliseconds; the range limit of a date and the two-digit year rule of `Date.UTC` are left out.
- ShiftProtocol.EveryInterleaving: of two waitlisted applications with the same time either may be promoted; hour entries are a read that may refuse a cancellation, and audit records are left out.
- PointsRuns.BalanceIsWorthOfDistinct: event ids are ULIDs, so deliveries with one type and id carry one payload; two different payloads under one id are excluded.
- Roles.IdentityStore.GrantRole: as one call it cannot lose a race; in the interleavings a lost race is a refused commit, and the second look for the winner's row only words the answer.
- Leaderboard.LeaderboardStore.RebuildLeaderboardSnapshot: one call is one atomic step, and row ids are left out.
- RoleRuns.DelegationIsConfined: the caller's status and assignments are read in one step, the commit in a later one; grants and revocations outside these calls do not exist in the source.
- Roles.IdentityStore.RequestErasure: only the person's status and roles; profile fields, the request row and its duplicate check are left out.
- Feed.PageBounds: display names, payloads and dates of a row are carried as one text; an empty cursor is an absent one.
- PdfReport.BuildTextReportPdf: the header lines of the hours report are one particular input; fonts and page geometry appear as their text only.
- Moderation, notifications, badges, data exports, log redaction and the plain list reads: no state worth an invariant beyond what is shown here.
