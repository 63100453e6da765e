/** Courses, quizzes, and one learner's enrollment: the calls a learner makes and what each changes. */
module Learning {
  import opened Common
  import opened PrerequisiteGraph

  datatype Choice = Choice(id: Id, correct: bool)
  datatype Question = Question(id: Id, choices: seq<Choice>)
  datatype Quiz = Quiz(passingScore: int, maxAttempts: Option<int>, questions: seq<Question>)
  datatype Module = Module(required: bool, duration: Option<int>, quiz: Option<Quiz>)
  datatype Course = Course(modules: map<Id, Module>, prerequisites: Edges, certificateEnabled: bool)

  datatype Answer = Answer(question: Id, choice: Id)

  datatype ProgressStatus = NotStarted | InProgress | Completed
  datatype Progress = Progress(status: ProgressStatus, resume: int, watch: int)
  datatype EnrollmentStatus = Active | Done | Withdrawn
  datatype Attempt = Attempt(quizOf: Id, score: int, passed: bool)

  datatype Event =
    | EnrollmentStarted
    | ModuleCompleted(m: Id)
    | CourseCompleted
    | CertificateIssued
    | QuizAttemptFailed(quizOf: Id, score: int)

  /** Everything the database holds about one enrollment. */
  datatype Record = Record(
    owner: Id,
    status: EnrollmentStatus,
    progress: map<Id, Progress>,
    attempts: seq<Attempt>,
    events: seq<Event>,
    certificates: nat)

  datatype LearningError =
    | NotEnrolled
    | ModuleNotFound
    | InputInvalid
    | ResumePositionExceedsDuration
    | ProgressRowMissing
    | PrerequisitesNotMet
    | QuizNotFound
    | MaxAttemptsExceeded
    | AnswersInvalid

  // ---------- the course ----------

  function RequiredModules(course: Course): set<Id> {
    set m | m in course.modules && course.modules[m].required
  }

  predicate UniqueIds(quiz: Quiz) {
    && (forall i, j :: 0 <= i < j < |quiz.questions| ==> quiz.questions[i].id != quiz.questions[j].id)
    && (forall q :: q in quiz.questions ==>
          forall i, j :: 0 <= i < j < |q.choices| ==> q.choices[i].id != q.choices[j].id)
  }

  predicate HasCorrectChoice(q: Question) {
    exists i :: 0 <= i < |q.choices| && q.choices[i].correct
  }

  predicate WellFormedQuiz(quiz: Quiz) {
    && 1 <= quiz.passingScore <= 100
    && UniqueIds(quiz)
    && forall i :: 0 <= i < |quiz.questions| ==> HasCorrectChoice(quiz.questions[i])
  }

  /** What every course built by `AddModule` satisfies. */
  ghost predicate WellFormedCourse(course: Course) {
    && Acyclic(course.prerequisites)
    && (forall m, p {:trigger p in Next(course.prerequisites, m)} :: p in Next(course.prerequisites, m) ==> m in course.modules && p in course.modules)
    && (forall m :: NoDuplicates(Next(course.prerequisites, m)))
    && (forall m :: m in course.modules && course.modules[m].quiz.Some? ==> WellFormedQuiz(course.modules[m].quiz.value))
  }

  // ---------- grading ----------

  /** The quiz's question with this id; a later row wins, as in a map built from the rows. */
  function FindQuestion(questions: seq<Question>, id: Id): Option<Question> {
    if questions == [] then None
    else
      var last := questions[|questions| - 1];
      if last.id == id then Some(last) else FindQuestion(questions[..|questions| - 1], id)
  }

  /** The first choice with this id. */
  function FindChoice(choices: seq<Choice>, id: Id): Option<Choice> {
    if choices == [] then None
    else if choices[0].id == id then Some(choices[0])
    else FindChoice(choices[1..], id)
  }

  /** The choice this answer picks, if the question and the choice both belong to the quiz. */
  function PickedChoice(quiz: Quiz, a: Answer): Option<Choice> {
    match FindQuestion(quiz.questions, a.question)
    case None => None
    case Some(q) => FindChoice(q.choices, a.choice)
  }

  predicate AnswersCorrectly(quiz: Quiz, a: Answer) {
    PickedChoice(quiz, a).Some? && PickedChoice(quiz, a).value.correct
  }

  predicate ValidSheet(quiz: Quiz, answers: seq<Answer>) {
    && |answers| == |quiz.questions|
    && (forall i :: 0 <= i < |answers| ==> PickedChoice(quiz, answers[i]).Some?)
    && (forall i, j :: 0 <= i < j < |answers| ==> answers[i].question != answers[j].question)
  }

  function CorrectPositions(quiz: Quiz, answers: seq<Answer>): set<nat> {
    set i | 0 <= i < |answers| && AnswersCorrectly(quiz, answers[i])
  }

  /** The answer loop: accepts exactly the valid sheets and counts the correct answers. */
  method Grade(quiz: Quiz, answers: seq<Answer>) returns (r: Result<nat, LearningError>)
    ensures r.Ok? <==> ValidSheet(quiz, answers)
    ensures r.Ok? ==> r.value == |CorrectPositions(quiz, answers)|
    ensures r.Err? ==> r.error == AnswersInvalid
  {
    if |answers| != |quiz.questions| {
      return Err(AnswersInvalid);
    }
    var answered: set<Id> := {};
    var correctCount := 0;
    for k := 0 to |answers|
      invariant forall i :: 0 <= i < k ==> PickedChoice(quiz, answers[i]).Some?
      invariant forall i, j :: 0 <= i < j < k ==> answers[i].question != answers[j].question
      invariant forall id :: id in answered <==> exists i :: 0 <= i < k && answers[i].question == id
      invariant correctCount == |CorrectPositions(quiz, answers[..k])|
    {
      var answer := answers[k];
      var question := FindQuestion(quiz.questions, answer.question);
      if question.None? {
        return Err(AnswersInvalid);
      }
      if answer.question in answered {
        return Err(AnswersInvalid);
      }
      answered := answered + {answer.question};
      var choice := FindChoice(question.value.choices, answer.choice);
      if choice.None? {
        return Err(AnswersInvalid);
      }
      CorrectPositionsStep(quiz, answers, k);
      if choice.value.correct {
        correctCount := correctCount + 1;
      }
    }
    assert answers[..|answers|] == answers;
    return Ok(correctCount);
  }

  lemma CorrectPositionsStep(quiz: Quiz, answers: seq<Answer>, k: nat)
    requires k < |answers|
    ensures |CorrectPositions(quiz, answers[..k + 1])|
         == |CorrectPositions(quiz, answers[..k])| + if AnswersCorrectly(quiz, answers[k]) then 1 else 0
  {
    var before := CorrectPositions(quiz, answers[..k]);
    var after := CorrectPositions(quiz, answers[..k + 1]);
    assert after == if AnswersCorrectly(quiz, answers[k]) then before + {k} else before;
  }

  /** `Math.round(100 * correct / total)`, halves rounded up. */
  function ScorePercent(correct: nat, total: nat): int {
    if total == 0 then 100 else (200 * correct + total) / (2 * total)
  }

  /** The score is the nearest whole percentage, halves going up, and never above 100. */
  lemma ScoreIsNearest(correct: nat, total: nat)
    requires 0 < total && correct <= total
    ensures 200 * correct - total < (2 * total) * ScorePercent(correct, total) <= 200 * correct + total
    ensures ScorePercent(correct, total) <= 100
  {
    var d, q := 2 * total, ScorePercent(correct, total);
    assert q == (200 * correct + total) / d;
    DivisionBounds(200 * correct + total, d);
    AtMostHundred(d, q);
  }

  lemma AtMostHundred(d: nat, q: int)
    requires d > 0 && 2 * (d * q) <= 201 * d
    ensures q <= 100
  {
  }

  lemma DivisionBounds(n: nat, d: nat)
    requires d > 0
    ensures d * (n / d) <= n < d * (n / d) + d
  {
  }

  // ---------- the calls, as steps on the record ----------

  predicate IsCompleted(r: Record, m: Id) {
    m in r.progress && r.progress[m].status == Completed
  }

  function CompletedAmong(r: Record, ms: set<Id>): set<Id> {
    set m | m in ms && IsCompleted(r, m)
  }

  predicate QuizPassed(r: Record, m: Id) {
    exists i :: 0 <= i < |r.attempts| && r.attempts[i].quizOf == m && r.attempts[i].passed
  }

  predicate ModuleReady(watch: int, quizPassed: bool) {
    watch >= 90 && quizPassed
  }

  predicate CourseReady(requiredCount: nat, completedCount: nat) {
    requiredCount > 0 && completedCount >= requiredCount
  }

  predicate PassedIfAny(course: Course, r: Record, m: Id) {
    m in course.modules && course.modules[m].quiz.Some? ==> QuizPassed(r, m)
  }

  function CompleteModule(course: Course, r: Record, m: Id): Record
    requires m in r.progress
  {
    if r.progress[m].status != Completed && ModuleReady(r.progress[m].watch, PassedIfAny(course, r, m)) then
      r.(progress := r.progress[m := r.progress[m].(status := Completed)], events := r.events + [ModuleCompleted(m)])
    else
      r
  }

  function CompleteCourse(course: Course, r: Record): Record {
    var required := RequiredModules(course);
    if r.status == Done || !CourseReady(|required|, |CompletedAmong(r, required)|) then r
    else if course.certificateEnabled then
      r.(status := Done, events := r.events + [CourseCompleted, CertificateIssued], certificates := r.certificates + 1)
    else
      r.(status := Done, events := r.events + [CourseCompleted])
  }

  function Evaluate(course: Course, r: Record, m: Id): Record
    requires m in r.progress
  {
    var next := CompleteModule(course, r, m);
    if IsCompleted(next, m) then CompleteCourse(course, next) else next
  }

  function Max(a: int, b: int): int {
    if a < b then b else a
  }

  function Advanced(p: Progress, resume: int, watch: int): Progress {
    var w, s := Max(p.watch, watch), Max(p.resume, resume);
    if p.status == Completed then p
    else Progress(if w > 0 || s > 0 then InProgress else NotStarted, s, w)
  }

  predicate PrerequisitesMet(course: Course, r: Record, m: Id) {
    var needed := Next(course.prerequisites, m);
    |CompletedAmong(r, Elements(needed))| >= |needed|
  }

  function AfterProgress(course: Course, r: Record, person: Id, m: Id, resume: int, watch: int)
    : Result<Record, LearningError>
  {
    if person != r.owner || r.status == Withdrawn then Err(NotEnrolled)
    else if m !in course.modules then Err(ModuleNotFound)
    else if resume < 0 || watch < 0 || watch > 100 then Err(InputInvalid)
    else if course.modules[m].duration.Some? && resume > course.modules[m].duration.value then
      Err(ResumePositionExceedsDuration)
    else if m !in r.progress then Err(ProgressRowMissing)
    else
      var p := r.progress[m];
      if (watch > p.watch || resume > p.resume) && p.status == NotStarted && !PrerequisitesMet(course, r, m) then
        Err(PrerequisitesNotMet)
      else
        Ok(Evaluate(course, r.(progress := r.progress[m := Advanced(p, resume, watch)]), m))
  }

  function AttemptsAt(attempts: seq<Attempt>, m: Id): nat {
    if attempts == [] then 0
    else AttemptsAt(attempts[..|attempts| - 1], m) + if attempts[|attempts| - 1].quizOf == m then 1 else 0
  }

  function AfterQuiz(course: Course, r: Record, person: Id, m: Id, answers: seq<Answer>)
    : Result<Record, LearningError>
  {
    if person != r.owner || r.status == Withdrawn then Err(NotEnrolled)
    else if m !in course.modules || course.modules[m].quiz.None? then Err(QuizNotFound)
    else
      var quiz := course.modules[m].quiz.value;
      if quiz.maxAttempts.Some? && AttemptsAt(r.attempts, m) >= quiz.maxAttempts.value then Err(MaxAttemptsExceeded)
      else if !ValidSheet(quiz, answers) then Err(AnswersInvalid)
      else
        var score := ScorePercent(|CorrectPositions(quiz, answers)|, |quiz.questions|);
        var passed := score >= quiz.passingScore;
        var logged := r.(attempts := r.attempts + [Attempt(m, score, passed)]);
        if !passed then Ok(logged.(events := logged.events + [QuizAttemptFailed(m, score)]))
        else if m !in r.progress then Err(ProgressRowMissing)
        else Ok(Evaluate(course, logged, m))
  }

  /** The record `EnrollInCourse` creates: every module of the course gets a progress row. */
  function Fresh(course: Course, owner: Id): Record {
    Record(owner, Active, map m | m in course.modules :: Progress(NotStarted, 0, 0), [], [EnrollmentStarted], 0)
  }

  // ---------- the same calls as updates of the stored rows ----------

  class Enrollment {
    const course: Course
    const owner: Id
    var status: EnrollmentStatus
    var progress: map<Id, Progress>
    var attempts: seq<Attempt>
    var events: seq<Event>
    var certificates: nat

    ghost function Model(): Record
      reads this
    {
      Record(owner, status, progress, attempts, events, certificates)
    }

    constructor (course: Course, owner: Id)
      ensures this.course == course && Model() == Fresh(course, owner)
      ensures this.owner == owner && status == Active && attempts == [] && events == [EnrollmentStarted] && certificates == 0
      ensures progress == map m | m in course.modules :: Progress(NotStarted, 0, 0)
    {
      this.course := course;
      this.owner := owner;
      status := Active;
      progress := map m | m in course.modules :: Progress(NotStarted, 0, 0);
      attempts := [];
      events := [EnrollmentStarted];
      certificates := 0;
    }

    method RecordProgress(person: Id, m: Id, resume: int, watch: int) returns (outcome: Result<ProgressStatus, LearningError>)
      modifies this
      ensures
        match AfterProgress(course, old(Model()), person, m, resume, watch)
        case Ok(next) => Model() == next && m in next.progress && outcome == Ok(next.progress[m].status)
        case Err(e) => Model() == old(Model()) && outcome == Err(e)
    {
      if person != owner || status == Withdrawn {
        return Err(NotEnrolled);
      }
      if m !in course.modules {
        return Err(ModuleNotFound);
      }
      if resume < 0 {
        return Err(InputInvalid);
      }
      if watch < 0 || watch > 100 {
        return Err(InputInvalid);
      }
      var duration := course.modules[m].duration;
      if duration.Some? && resume > duration.value {
        return Err(ResumePositionExceedsDuration);
      }
      if m !in progress {
        return Err(ProgressRowMissing);
      }
      var existing := progress[m];
      var isAdvancing := watch > existing.watch || resume > existing.resume;
      var dependsOn := Next(course.prerequisites, m);
      if isAdvancing && existing.status == NotStarted && |dependsOn| > 0 {
        var completed := set p | p in dependsOn && p in progress && progress[p].status == Completed;
        assert completed == CompletedAmong(Model(), Elements(dependsOn));
        if |completed| < |dependsOn| {
          return Err(PrerequisitesNotMet);
        }
      }
      if existing.status != Completed {
        var nextWatch := Max(existing.watch, watch);
        var nextResume := Max(existing.resume, resume);
        var nextStatus := if nextWatch > 0 || nextResume > 0 then InProgress else NotStarted;
        progress := progress[m := Progress(nextStatus, nextResume, nextWatch)];
      }
      assert Model().progress == old(progress)[m := Advanced(existing, resume, watch)];
      var moduleStatus := EvaluateModuleAndCourse(m);
      return Ok(moduleStatus);
    }

    method SubmitQuiz(person: Id, m: Id, answers: seq<Answer>) returns (outcome: Result<bool, LearningError>)
      modifies this
      ensures
        match AfterQuiz(course, old(Model()), person, m, answers)
        case Ok(next) => Model() == next && |next.attempts| > 0 && outcome == Ok(next.attempts[|next.attempts| - 1].passed)
        case Err(e) => Model() == old(Model()) && outcome == Err(e)
    {
      if person != owner || status == Withdrawn {
        return Err(NotEnrolled);
      }
      if m !in course.modules || course.modules[m].quiz.None? {
        return Err(QuizNotFound);
      }
      var quiz := course.modules[m].quiz.value;
      if quiz.maxAttempts.Some? && AttemptsAt(attempts, m) >= quiz.maxAttempts.value {
        return Err(MaxAttemptsExceeded);
      }
      var graded := Grade(quiz, answers);
      if graded.Err? {
        return Err(graded.error);
      }
      var score := ScorePercent(graded.value, |quiz.questions|);
      var passed := score >= quiz.passingScore;
      if passed && m !in progress {
        return Err(ProgressRowMissing);
      }
      attempts := attempts + [Attempt(m, score, passed)];
      if passed {
        var _ := EvaluateModuleAndCourse(m);
      } else {
        events := events + [QuizAttemptFailed(m, score)];
      }
      return Ok(passed);
    }

    /** `evaluateModuleAndCourseCompletion`: runs inside the caller's transaction. */
    method EvaluateModuleAndCourse(m: Id) returns (moduleStatus: ProgressStatus)
      requires m in progress
      modifies this
      ensures Model() == Evaluate(course, old(Model()), m)
      ensures m in progress && moduleStatus == progress[m].status
    {
      moduleStatus := progress[m].status;
      if moduleStatus != Completed {
        var quizPassed := true;
        if m in course.modules && course.modules[m].quiz.Some? {
          quizPassed := exists i :: 0 <= i < |attempts| && attempts[i].quizOf == m && attempts[i].passed;
        }
        assert quizPassed == PassedIfAny(course, Model(), m);
        if ModuleReady(progress[m].watch, quizPassed) {
          progress := progress[m := progress[m].(status := Completed)];
          moduleStatus := Completed;
          events := events + [ModuleCompleted(m)];
        }
      }
      assert Model() == CompleteModule(course, old(Model()), m);
      if moduleStatus == Completed {
        CompleteCourseIfEligible();
      }
    }

    method CompleteCourseIfEligible()
      modifies this
      ensures Model() == CompleteCourse(course, old(Model())) && progress == old(progress)
    {
      if status == Done {
        return;
      }
      var required := RequiredModules(course);
      var completed := set m | m in required && m in progress && progress[m].status == Completed;
      assert completed == CompletedAmong(Model(), required);
      if !CourseReady(|required|, |completed|) {
        return;
      }
      status := Done;
      events := events + [CourseCompleted];
      if course.certificateEnabled {
        certificates := certificates + 1;
        events := events + [CertificateIssued];
        assert events == old(events) + [CourseCompleted, CertificateIssued];
      }
    }
  }
}
