/** Exactly which well-formed courses a learner can finish. */
module CourseCompletable {
  import opened Common
  import opened PrerequisiteGraph
  import opened Learning
  import opened LearningRuns

  /** Required, or a direct or indirect prerequisite of a required module. */
  ghost predicate Needed(course: Course, m: Id) {
    exists r :: r in course.modules && course.modules[r].required && Reaches(course.prerequisites, r, m)
  }

  /** Its quiz may be attempted at least once, and its video, if measured, has no negative length. */
  predicate Attemptable(course: Course, m: Id)
    requires m in course.modules
  {
    var quiz, duration := course.modules[m].quiz, course.modules[m].duration;
    && (quiz.Some? && quiz.value.maxAttempts.Some? ==> quiz.value.maxAttempts.value >= 1)
    && (duration.Some? ==> duration.value >= 0)
  }

  /** The condition an author can check before publishing the course. */
  ghost predicate Passable(course: Course) {
    && (exists r :: r in course.modules && course.modules[r].required)
    && forall m :: m in course.modules && Needed(course, m) ==> Attemptable(course, m)
  }

  ghost predicate Completable(course: Course, owner: Id) {
    exists calls :: RunCalls(course, Fresh(course, owner), calls).status == Done
  }

  // ---------- every quiz has a passing sheet ----------

  ghost function CorrectChoice(q: Question): (k: nat)
    requires HasCorrectChoice(q)
    ensures k < |q.choices| && q.choices[k].correct
  {
    var k :| 0 <= k < |q.choices| && q.choices[k].correct; k
  }

  ghost function PerfectSheet(quiz: Quiz): seq<Answer>
    requires WellFormedQuiz(quiz)
  {
    seq(|quiz.questions|, i requires 0 <= i < |quiz.questions| =>
      Answer(quiz.questions[i].id, quiz.questions[i].choices[CorrectChoice(quiz.questions[i])].id))
  }

  lemma {:induction false} FindsQuestion(questions: seq<Question>, i: nat)
    requires i < |questions|
    requires forall a, b :: 0 <= a < b < |questions| ==> questions[a].id != questions[b].id
    ensures FindQuestion(questions, questions[i].id) == Some(questions[i])
  {
    if i < |questions| - 1 {
      FindsQuestion(questions[..|questions| - 1], i);
    }
  }

  lemma {:induction false} FindsChoice(choices: seq<Choice>, k: nat)
    requires k < |choices|
    requires forall a, b :: 0 <= a < b < |choices| ==> choices[a].id != choices[b].id
    ensures FindChoice(choices, choices[k].id) == Some(choices[k])
  {
    if k > 0 {
      assert choices[0].id != choices[k].id;
      assert choices[1..][k - 1] == choices[k];
      FindsChoice(choices[1..], k - 1);
    }
  }

  lemma PerfectAnswer(quiz: Quiz, i: nat)
    requires WellFormedQuiz(quiz) && i < |quiz.questions|
    ensures AnswersCorrectly(quiz, PerfectSheet(quiz)[i])
  {
    var q := quiz.questions[i];
    assert q in quiz.questions;
    FindsQuestion(quiz.questions, i);
    FindsChoice(q.choices, CorrectChoice(q));
  }

  lemma {:induction false} AllCorrectCount(quiz: Quiz, answers: seq<Answer>, k: nat)
    requires k <= |answers| && forall i :: 0 <= i < k ==> AnswersCorrectly(quiz, answers[i])
    ensures |CorrectPositions(quiz, answers[..k])| == k
  {
    if k == 0 {
      assert CorrectPositions(quiz, answers[..0]) == {};
    } else {
      AllCorrectCount(quiz, answers, k - 1);
      CorrectPositionsStep(quiz, answers, k - 1);
    }
  }

  lemma FullScore(n: nat)
    ensures ScorePercent(n, n) >= 100
  {
    if n > 0 {
      assert 200 * n + n == 100 * (2 * n) + n;
    }
  }

  lemma PerfectSheetPasses(quiz: Quiz)
    requires WellFormedQuiz(quiz)
    ensures ValidSheet(quiz, PerfectSheet(quiz))
    ensures ScorePercent(|CorrectPositions(quiz, PerfectSheet(quiz))|, |quiz.questions|) >= quiz.passingScore
  {
    var sheet := PerfectSheet(quiz);
    forall i | 0 <= i < |sheet| ensures AnswersCorrectly(quiz, sheet[i]) {
      PerfectAnswer(quiz, i);
    }
    AllCorrectCount(quiz, sheet, |sheet|);
    assert sheet[..|sheet|] == sheet;
    FullScore(|sheet|);
  }

  // ---------- finishing one module ----------

  predicate Untouched(r: Record, m: Id) {
    m in r.progress && r.progress[m] == Progress(NotStarted, 0, 0) && AttemptsAt(r.attempts, m) == 0
  }

  /** `next` differs from `r` only in that `x` has been completed. */
  ghost predicate OnlyCompletes(r: Record, next: Record, x: Id) {
    && IsCompleted(next, x) && next.owner == r.owner
    && (forall y :: y != x ==> (IsCompleted(next, y) <==> IsCompleted(r, y)))
    && (forall y :: y != x && Untouched(r, y) ==> Untouched(next, y))
  }

  lemma QuizIsWellFormed(course: Course, x: Id)
    requires WellFormedCourse(course) && x in course.modules && course.modules[x].quiz.Some?
    ensures WellFormedQuiz(course.modules[x].quiz.value)
  {
  }

  lemma PassingSheetIsLogged(course: Course, r: Record, x: Id, sheet: seq<Answer>, score: int)
    requires x in course.modules && course.modules[x].quiz.Some? && Attemptable(course, x) && Untouched(r, x) && r.status != Withdrawn
    requires var quiz := course.modules[x].quiz.value;
             && ValidSheet(quiz, sheet) && score >= quiz.passingScore
             && score == ScorePercent(|CorrectPositions(quiz, sheet)|, |quiz.questions|)
    ensures AfterQuiz(course, r, r.owner, x, sheet) == Ok(r.(attempts := r.attempts + [Attempt(x, score, true)]))
  {
  }

  lemma PassQuiz(course: Course, r: Record, x: Id) returns (call: Call, next: Record)
    requires WellFormedCourse(course) && Inv(course, r)
    requires x in course.modules && course.modules[x].quiz.Some? && Attemptable(course, x) && Untouched(r, x)
    ensures next == After(course, r, call) && Inv(course, next)
    ensures next.progress == r.progress && next.owner == r.owner && QuizPassed(next, x)
    ensures forall y :: y != x && Untouched(r, y) ==> Untouched(next, y)
  {
    hide WellFormedCourse, WellFormedQuiz, ValidSheet, ScorePercent, CorrectPositions, AfterQuiz, EventsMatch, Finished, ProgressJustified, AttemptsJustified;
    var quiz := course.modules[x].quiz.value;
    QuizIsWellFormed(course, x);
    var sheet := PerfectSheet(quiz);
    PerfectSheetPasses(quiz);
    call := Answers(r.owner, x, sheet);
    next := After(course, r, call);
    CallKeeps(course, r, call);
    var score := ScorePercent(|CorrectPositions(quiz, sheet)|, |quiz.questions|);
    PassingSheetIsLogged(course, r, x, sheet, score);
    assert next.attempts[|r.attempts|] == Attempt(x, score, true);
    assert next.attempts[..|next.attempts| - 1] == r.attempts;
  }

  /** Watching to the end completes a module whose gate is open and whose quiz, if any, is passed. */
  lemma WatchedToTheEnd(course: Course, r: Record, x: Id)
    requires x in course.modules && x in r.progress && Attemptable(course, x) && r.status != Withdrawn
    requires r.progress[x] == Progress(NotStarted, 0, 0) && PassedIfAny(course, r, x) && PrerequisitesMet(course, r, x)
    ensures var next := After(course, r, Watch(r.owner, x, 0, 100));
            next.progress == r.progress[x := Progress(Completed, 0, 100)] && next.attempts == r.attempts
  {
    var moved := r.(progress := r.progress[x := Progress(InProgress, 0, 100)]);
    assert AfterProgress(course, r, r.owner, x, 0, 100) == Ok(Evaluate(course, moved, x));
    assert PassedIfAny(course, moved, x);
    assert CompleteModule(course, moved, x).progress == r.progress[x := Progress(Completed, 0, 100)];
  }

  lemma ChangesOnly(r: Record, next: Record, x: Id, p: Progress)
    requires p.status == Completed && next.owner == r.owner
    requires next.progress == r.progress[x := p] && next.attempts == r.attempts
    ensures OnlyCompletes(r, next, x)
  {
  }

  lemma FinishModule(course: Course, r: Record, x: Id) returns (call: Call, next: Record)
    requires WellFormedCourse(course) && Inv(course, r) && x in course.modules && Attemptable(course, x)
    requires r.progress[x] == Progress(NotStarted, 0, 0) && PassedIfAny(course, r, x)
    requires forall q :: q in Next(course.prerequisites, x) ==> IsCompleted(r, q)
    ensures next == After(course, r, call) && Inv(course, next) && OnlyCompletes(r, next, x)
  {
    call := Watch(r.owner, x, 0, 100);
    next := After(course, r, call);
    PrerequisitesMetMeans(course, r, x);
    CallKeeps(course, r, call);
    WatchedToTheEnd(course, r, x);
    ChangesOnly(r, next, x, Progress(Completed, 0, 100));
  }

  lemma CompleteOne(course: Course, r: Record, x: Id) returns (calls: seq<Call>)
    requires WellFormedCourse(course) && Inv(course, r)
    requires x in course.modules && Attemptable(course, x) && Untouched(r, x)
    requires forall q :: q in Next(course.prerequisites, x) ==> IsCompleted(r, q)
    ensures Inv(course, RunCalls(course, r, calls)) && OnlyCompletes(r, RunCalls(course, r, calls), x)
  {
    if course.modules[x].quiz.Some? {
      var first, middle := PassQuiz(course, r, x);
      var second, next := FinishModule(course, middle, x);
      calls := [first, second];
      assert calls[1..] == [second] && RunCalls(course, middle, [second]) == next;
      assert RunCalls(course, r, calls) == next;
    } else {
      var only, next := FinishModule(course, r, x);
      calls := [only];
      assert RunCalls(course, r, calls) == next;
    }
  }

  // ---------- finishing the course ----------

  ghost function OpenNeeded(course: Course, r: Record): set<Id> {
    set m | m in course.modules && Needed(course, m) && !IsCompleted(r, m)
  }

  lemma NeededIsClosed(course: Course, m: Id, q: Id)
    requires Needed(course, m) && q in Next(course.prerequisites, m)
    ensures Needed(course, q)
  {
    var r :| r in course.modules && course.modules[r].required && Reaches(course.prerequisites, r, m);
    ReachesStep(course.prerequisites, r, m, q);
  }

  lemma RequiredIsNeeded(course: Course, m: Id)
    requires m in RequiredModules(course)
    ensures Needed(course, m)
  {
    ReachesSelf(course.prerequisites, m);
  }

  ghost predicate PoolUntouched(course: Course, r: Record) {
    forall m :: m in OpenNeeded(course, r) ==> Untouched(r, m)
  }

  lemma PoolShrinks(course: Course, r: Record, next: Record, x: Id)
    requires OnlyCompletes(r, next, x) && PoolUntouched(course, r) && x in OpenNeeded(course, r)
    ensures OpenNeeded(course, next) == OpenNeeded(course, r) - {x} && PoolUntouched(course, next)
  {
  }

  lemma EmptyPoolIsDone(course: Course, r: Record)
    requires Inv(course, r) && Passable(course) && OpenNeeded(course, r) == {}
    ensures r.status == Done
  {
    var some :| some in course.modules && course.modules[some].required;
    assert some in RequiredModules(course);
    forall m | m in RequiredModules(course) ensures IsCompleted(r, m) {
      RequiredIsNeeded(course, m);
      assert m !in OpenNeeded(course, r);
    }
  }

  lemma OpenGate(course: Course, r: Record, x: Id)
    requires WellFormedCourse(course) && Needed(course, x)
    requires !NeedsOneOf(course.prerequisites, OpenNeeded(course, r), x)
    ensures forall q :: q in Next(course.prerequisites, x) ==> IsCompleted(r, q)
  {
    forall q | q in Next(course.prerequisites, x) ensures IsCompleted(r, q) {
      NeededIsClosed(course, x, q);
      assert q !in OpenNeeded(course, r);
    }
  }

  lemma {:induction false} FinishNeeded(course: Course, r: Record) returns (calls: seq<Call>)
    requires WellFormedCourse(course) && Inv(course, r) && Passable(course) && PoolUntouched(course, r)
    ensures RunCalls(course, r, calls).status == Done
    decreases |OpenNeeded(course, r)|
  {
    var pool := OpenNeeded(course, r);
    if pool == {} {
      calls := [];
      EmptyPoolIsDone(course, r);
    } else {
      var x := AcyclicHasSource(course.prerequisites, pool);
      OpenGate(course, r, x);
      var first := CompleteOne(course, r, x);
      var next := RunCalls(course, r, first);
      PoolShrinks(course, r, next, x);
      var rest := FinishNeeded(course, next);
      calls := first + rest;
      RunConcat(course, r, first, rest);
    }
  }

  // ---------- what a finished course implies ----------

  lemma {:induction false} CompletedAlongPath(course: Course, r: Record, p: seq<Id>)
    requires WellFormedCourse(course) && Inv(course, r)
    requires IsPath(course.prerequisites, p) && IsCompleted(r, p[0])
    ensures IsCompleted(r, p[|p| - 1])
    decreases |p|
  {
    if |p| > 1 {
      assert ProgressJustified(course, r, p[0]);
      assert p[1] in Next(course.prerequisites, p[0]);
      CompletedAlongPath(course, r, p[1..]);
    }
  }

  lemma {:induction false} PassedWasAttempted(attempts: seq<Attempt>, i: nat)
    requires i < |attempts|
    ensures AttemptsAt(attempts, attempts[i].quizOf) > 0
  {
    if i < |attempts| - 1 {
      PassedWasAttempted(attempts[..|attempts| - 1], i);
    }
  }

  lemma DoneNeedsAttemptable(course: Course, r: Record, m: Id)
    requires WellFormedCourse(course) && Inv(course, r) && r.status == Done
    requires m in course.modules && Needed(course, m)
    ensures Attemptable(course, m)
  {
    var top :| top in RequiredModules(course) && Reaches(course.prerequisites, top, m);
    var p :| PathBetween(course.prerequisites, p, top, m);
    CompletedAlongPath(course, r, p);
    assert ProgressJustified(course, r, m);
    if course.modules[m].quiz.Some? {
      var i :| 0 <= i < |r.attempts| && r.attempts[i].quizOf == m && r.attempts[i].passed;
      PassedWasAttempted(r.attempts, i);
    }
  }

  /**
   * A learner can finish a well-formed course exactly when it has a required module and every needed
   * module can be attempted. `AddModule` accepts any attempt limit, so this is a real condition.
   */
  lemma CompletableExactlyWhen(course: Course, owner: Id)
    requires WellFormedCourse(course)
    ensures Completable(course, owner) <==> Passable(course)
  {
    var start := Fresh(course, owner);
    FreshIsConsistent(course, owner);
    if Completable(course, owner) {
      var calls :| RunCalls(course, start, calls).status == Done;
      RunKeepsInvariant(course, start, calls);
      forall m | m in course.modules && Needed(course, m) ensures Attemptable(course, m) {
        DoneNeedsAttemptable(course, RunCalls(course, start, calls), m);
      }
    }
    if Passable(course) {
      var calls := FinishNeeded(course, start);
    }
  }
}
