/** What every sequence of learner calls on a fixed course keeps, and which courses can be completed at all. */
module LearningRuns {
  import opened Common
  import opened PrerequisiteGraph
  import opened Learning

  datatype Call =
    | Watch(person: Id, m: Id, resume: int, watch: int)
    | Answers(person: Id, m: Id, answers: seq<Answer>)

  /** A refused call changes nothing. */
  function After(course: Course, r: Record, call: Call): Record {
    var outcome := match call
      case Watch(person, m, resume, watch) => AfterProgress(course, r, person, m, resume, watch)
      case Answers(person, m, answers) => AfterQuiz(course, r, person, m, answers);
    match outcome
    case Ok(next) => next
    case Err(_) => r
  }

  function RunCalls(course: Course, r: Record, calls: seq<Call>): Record
    decreases |calls|
  {
    if calls == [] then r else RunCalls(course, After(course, r, calls[0]), calls[1..])
  }

  lemma {:induction false} RunConcat(course: Course, r: Record, a: seq<Call>, b: seq<Call>)
    ensures RunCalls(course, r, a + b) == RunCalls(course, RunCalls(course, r, a), b)
    decreases |a|
  {
    if a == [] {
      assert a + b == b;
    } else {
      assert (a + b)[0] == a[0] && (a + b)[1..] == a[1..] + b;
      RunConcat(course, After(course, r, a[0]), a[1..], b);
    }
  }

  // ---------- the invariant ----------

  ghost predicate Finished(course: Course, r: Record) {
    RequiredModules(course) != {} && forall m :: m in RequiredModules(course) ==> IsCompleted(r, m)
  }

  function Occurrences(events: seq<Event>, e: Event): nat {
    multiset(events)[e]
  }

  ghost predicate EventsMatch(course: Course, r: Record) {
    && (forall m :: Occurrences(r.events, ModuleCompleted(m)) == if IsCompleted(r, m) then 1 else 0)
    && Occurrences(r.events, CourseCompleted) == (if r.status == Done then 1 else 0)
    && r.certificates == (if r.status == Done && course.certificateEnabled then 1 else 0)
    && Occurrences(r.events, CertificateIssued) == r.certificates
  }

  ghost predicate ProgressJustified(course: Course, r: Record, m: Id)
    requires m in r.progress
  {
    var p := r.progress[m];
    && m in course.modules
    && (p.status != NotStarted && course.modules[m].duration.Some? ==> p.resume <= course.modules[m].duration.value)
    && 0 <= p.watch <= 100 && 0 <= p.resume
    && (p.status == NotStarted <==> p.watch == 0 && p.resume == 0)
    && (p.status != NotStarted ==> forall q :: q in Next(course.prerequisites, m) ==> IsCompleted(r, q))
    && (p.status == Completed ==> p.watch >= 90 && PassedIfAny(course, r, m))
  }

  ghost predicate AttemptsJustified(course: Course, r: Record) {
    && (forall i :: 0 <= i < |r.attempts| ==>
          var a := r.attempts[i];
          && a.quizOf in course.modules && course.modules[a.quizOf].quiz.Some?
          && (a.passed <==> a.score >= course.modules[a.quizOf].quiz.value.passingScore))
    && (forall m :: m in course.modules && course.modules[m].quiz.Some? && AttemptsAt(r.attempts, m) > 0 ==>
          var limit := course.modules[m].quiz.value.maxAttempts;
          limit.Some? ==> AttemptsAt(r.attempts, m) <= limit.value)
  }

  /** Everything but that a finished course has already been marked done. */
  ghost predicate Consistent(course: Course, r: Record) {
    && r.progress.Keys == course.modules.Keys
    && r.status != Withdrawn
    && (r.status == Done ==> Finished(course, r))
    && EventsMatch(course, r)
    && (forall m :: m in r.progress ==> ProgressJustified(course, r, m))
    && AttemptsJustified(course, r)
  }

  ghost predicate Inv(course: Course, r: Record) {
    Consistent(course, r) && (Finished(course, r) ==> r.status == Done)
  }

  /** Nothing a learner has earned is ever taken back. */
  ghost predicate NoRegress(a: Record, b: Record) {
    && a.owner == b.owner
    && a.progress.Keys == b.progress.Keys
    && (forall m :: m in a.progress ==>
          && a.progress[m].watch <= b.progress[m].watch
          && a.progress[m].resume <= b.progress[m].resume
          && (IsCompleted(a, m) ==> b.progress[m] == a.progress[m])
          && (a.progress[m].status != NotStarted ==> b.progress[m].status != NotStarted))
    && a.attempts <= b.attempts
    && a.events <= b.events
    && a.certificates <= b.certificates
    && (a.status == Done ==> b.status == Done)
  }

  // ---------- supporting facts ----------

  lemma OccurrencesAppend(events: seq<Event>, more: seq<Event>, e: Event)
    ensures Occurrences(events + more, e) == Occurrences(events, e) + Occurrences(more, e)
  {
  }

  /** Counting completed prerequisites is the same as asking for each of them. */
  lemma PrerequisitesMetMeans(course: Course, r: Record, m: Id)
    requires NoDuplicates(Next(course.prerequisites, m))
    ensures PrerequisitesMet(course, r, m) <==> forall q :: q in Next(course.prerequisites, m) ==> IsCompleted(r, q)
  {
    var needed := Next(course.prerequisites, m);
    var asSet := Elements(needed);
    DistinctCount(needed);
    if PrerequisitesMet(course, r, m) {
      FullSubset(CompletedAmong(r, asSet), asSet);
      assert forall q :: q in needed ==> q in asSet;
    }
    if forall q :: q in needed ==> IsCompleted(r, q) {
      assert CompletedAmong(r, asSet) == asSet;
    }
  }

  /** Comparing counts is the same as asking for every required module. */
  lemma CourseReadyMeans(course: Course, r: Record)
    ensures CourseReady(|RequiredModules(course)|, |CompletedAmong(r, RequiredModules(course))|) <==> Finished(course, r)
  {
    var required := RequiredModules(course);
    if |CompletedAmong(r, required)| >= |required| {
      FullSubset(CompletedAmong(r, required), required);
      assert forall m :: m in required ==> m in CompletedAmong(r, required);
    }
    if Finished(course, r) {
      assert CompletedAmong(r, required) == required;
    }
  }

  /** Completing the course: nothing until every required module is completed, then everything it brings, in this order, once. */
  lemma CompleteCourseMeans(course: Course, r: Record)
    ensures var ready := (exists m :: m in course.modules && course.modules[m].required)
                         && forall m :: m in course.modules && course.modules[m].required ==> m in r.progress && r.progress[m].status == Completed;
      CompleteCourse(course, r) ==
        if r.status == Done || !ready then r
        else if course.certificateEnabled then
          r.(status := Done, events := r.events + [CourseCompleted, CertificateIssued], certificates := r.certificates + 1)
        else r.(status := Done, events := r.events + [CourseCompleted])
  {
    CourseReadyMeans(course, r);
    RequiredMeans(course);
    assert forall m :: m in RequiredModules(course) <==> m in course.modules && course.modules[m].required;
  }

  lemma RequiredMeans(course: Course)
    ensures RequiredModules(course) != {} <==> exists m :: m in course.modules && course.modules[m].required
  {
    if m :| m in course.modules && course.modules[m].required {
      assert m in RequiredModules(course);
    }
    if RequiredModules(course) != {} {
      var m :| m in RequiredModules(course);
      assert m in course.modules && course.modules[m].required;
    }
  }

  /** Completing a module: once, when watched to 90 percent and, with a quiz, passed; only then is the course looked at. */
  lemma EvaluateMeans(course: Course, r: Record, m: Id)
    requires m in r.progress
    ensures var p := r.progress[m];
      var passed := m in course.modules && course.modules[m].quiz.Some? ==>
                      exists i :: 0 <= i < |r.attempts| && r.attempts[i].quizOf == m && r.attempts[i].passed;
      Evaluate(course, r, m) ==
        if p.status == Completed then CompleteCourse(course, r)
        else if p.watch >= 90 && passed then
          CompleteCourse(course, r.(progress := r.progress[m := p.(status := Completed)], events := r.events + [ModuleCompleted(m)]))
        else r
  {
    hide CompleteCourse;
  }

  // ---------- each step keeps the invariant ----------

  lemma ModuleEventsKeep(course: Course, r: Record, next: Record, m: Id)
    requires EventsMatch(course, r) && !IsCompleted(r, m)
    requires next.status == r.status && next.certificates == r.certificates
    requires next.events == r.events + [ModuleCompleted(m)]
    requires forall x :: IsCompleted(next, x) <==> IsCompleted(r, x) || x == m
    ensures EventsMatch(course, next)
  {
  }

  /** Progress stays justified when every completed module stays completed and no attempt is lost. */
  lemma JustifiedKeeps(course: Course, r: Record, next: Record, m: Id)
    requires m in r.progress && m in next.progress && next.progress[m] == r.progress[m]
    requires ProgressJustified(course, r, m)
    requires r.attempts <= next.attempts
    requires forall x :: IsCompleted(r, x) ==> IsCompleted(next, x)
    ensures ProgressJustified(course, next, m)
  {
  }

  lemma AttemptsStayJustified(course: Course, r: Record, next: Record)
    requires AttemptsJustified(course, r) && next.attempts == r.attempts
    ensures AttemptsJustified(course, next)
  {
  }

  lemma CompleteModuleKeeps(course: Course, r: Record, m: Id)
    requires Consistent(course, r) && m in r.progress
    ensures Consistent(course, CompleteModule(course, r, m)) && NoRegress(r, CompleteModule(course, r, m))
  {
    hide RequiredModules, EventsMatch, AttemptsJustified;
    var next := CompleteModule(course, r, m);
    if next != r {
      AttemptsStayJustified(course, r, next);
      forall x ensures IsCompleted(next, x) <==> IsCompleted(r, x) || x == m {
      }
      ModuleEventsKeep(course, r, next, m);
      forall x | x in next.progress ensures ProgressJustified(course, next, x) {
        assert ProgressJustified(course, r, x);
        if x != m {
          JustifiedKeeps(course, r, next, x);
        } else {
          AttemptsOnlyHelp(r, next, m);
        }
      }
    }
  }

  lemma CompleteCourseKeeps(course: Course, r: Record)
    requires Consistent(course, r)
    ensures Inv(course, CompleteCourse(course, r)) && NoRegress(r, CompleteCourse(course, r))
  {
    CourseReadyMeans(course, r);
    var next := CompleteCourse(course, r);
    if next != r {
      var more := if course.certificateEnabled then [CourseCompleted, CertificateIssued] else [CourseCompleted];
      forall e ensures Occurrences(next.events, e) == Occurrences(r.events, e) + Occurrences(more, e) {
        OccurrencesAppend(r.events, more, e);
      }
      forall x ensures IsCompleted(next, x) == IsCompleted(r, x) {
      }
      forall x | x in next.progress ensures ProgressJustified(course, next, x) {
        JustifiedKeeps(course, r, next, x);
      }
    }
  }

  lemma NoRegressTransitive(a: Record, b: Record, c: Record)
    requires NoRegress(a, b) && NoRegress(b, c)
    ensures NoRegress(a, c)
  {
  }

  lemma EvaluateKeeps(course: Course, r: Record, m: Id)
    requires Inv(course, r) && m in r.progress
    ensures Inv(course, Evaluate(course, r, m)) && NoRegress(r, Evaluate(course, r, m))
  {
    assert ProgressJustified(course, r, m);
    CompleteModuleKeeps(course, r, m);
    var next := CompleteModule(course, r, m);
    if IsCompleted(next, m) {
      CompleteCourseKeeps(course, next);
      NoRegressTransitive(r, next, CompleteCourse(course, next));
    }
  }

  /** Rows that stay completed or not, with nothing announced or decided, keep the books balanced. */
  lemma BooksStay(course: Course, r: Record, next: Record)
    requires EventsMatch(course, r) && Inv(course, r)
    requires next.events == r.events && next.status == r.status && next.certificates == r.certificates
    requires forall x :: IsCompleted(next, x) == IsCompleted(r, x)
    ensures EventsMatch(course, next) && (Finished(course, next) <==> next.status == Done)
  {
  }

  lemma AdvanceJustified(course: Course, r: Record, m: Id, resume: int, watch: int)
    requires m in r.progress && ProgressJustified(course, r, m) && 0 <= resume && 0 <= watch <= 100
    requires course.modules[m].duration.Some? ==> resume <= course.modules[m].duration.value
    requires (watch > r.progress[m].watch || resume > r.progress[m].resume) && r.progress[m].status == NotStarted ==>
               forall q :: q in Next(course.prerequisites, m) ==> IsCompleted(r, q)
    ensures var next := r.(progress := r.progress[m := Advanced(r.progress[m], resume, watch)]);
            ProgressJustified(course, next, m) && NoRegress(r, next) && forall x :: IsCompleted(next, x) == IsCompleted(r, x)
  {
    hide QuizPassed;
    var next := r.(progress := r.progress[m := Advanced(r.progress[m], resume, watch)]);
    forall x ensures IsCompleted(next, x) == IsCompleted(r, x) {
    }
    AttemptsOnlyHelp(r, next, m);
  }

  lemma AdvanceKeeps(course: Course, r: Record, m: Id, resume: int, watch: int)
    requires Inv(course, r) && m in r.progress && 0 <= resume && 0 <= watch <= 100
    requires course.modules[m].duration.Some? ==> resume <= course.modules[m].duration.value
    requires (watch > r.progress[m].watch || resume > r.progress[m].resume) && r.progress[m].status == NotStarted ==>
               forall q :: q in Next(course.prerequisites, m) ==> IsCompleted(r, q)
    ensures var next := r.(progress := r.progress[m := Advanced(r.progress[m], resume, watch)]);
            Inv(course, next) && NoRegress(r, next)
  {
    hide EventsMatch, AttemptsJustified, ProgressJustified, Finished;
    var next := r.(progress := r.progress[m := Advanced(r.progress[m], resume, watch)]);
    AdvanceJustified(course, r, m, resume, watch);
    AttemptsStayJustified(course, r, next);
    BooksStay(course, r, next);
    forall x | x in next.progress ensures ProgressJustified(course, next, x) {
      if x != m {
        JustifiedKeeps(course, r, next, x);
      }
    }
  }

  lemma AttemptKeeps(course: Course, r: Record, a: Attempt)
    requires Inv(course, r)
    requires a.quizOf in course.modules && course.modules[a.quizOf].quiz.Some?
    requires var quiz := course.modules[a.quizOf].quiz.value;
             && (a.passed <==> a.score >= quiz.passingScore)
             && (quiz.maxAttempts.Some? ==> AttemptsAt(r.attempts, a.quizOf) < quiz.maxAttempts.value)
    ensures var next := r.(attempts := r.attempts + [a]); Inv(course, next) && NoRegress(r, next)
  {
    var next := r.(attempts := r.attempts + [a]);
    assert next.attempts[..|next.attempts| - 1] == r.attempts;
    forall x ensures IsCompleted(next, x) == IsCompleted(r, x) {
    }
    forall x | x in next.progress ensures ProgressJustified(course, next, x) {
      JustifiedKeeps(course, r, next, x);
    }
    forall m ensures AttemptsAt(next.attempts, m) == AttemptsAt(r.attempts, m) + if m == a.quizOf then 1 else 0 {
    }
  }

  lemma AttemptsOnlyHelp(r: Record, next: Record, m: Id)
    requires r.attempts <= next.attempts
    ensures QuizPassed(r, m) ==> QuizPassed(next, m)
  {
  }

  lemma FailedEventKeeps(course: Course, r: Record, m: Id, score: int)
    requires Inv(course, r)
    ensures var next := r.(events := r.events + [QuizAttemptFailed(m, score)]); Inv(course, next) && NoRegress(r, next)
  {
    var next := r.(events := r.events + [QuizAttemptFailed(m, score)]);
    forall e ensures e != QuizAttemptFailed(m, score) ==> Occurrences(next.events, e) == Occurrences(r.events, e) {
      OccurrencesAppend(r.events, [QuizAttemptFailed(m, score)], e);
    }
    forall x ensures IsCompleted(next, x) == IsCompleted(r, x) {
    }
    forall x | x in next.progress ensures ProgressJustified(course, next, x) {
      JustifiedKeeps(course, r, next, x);
    }
  }

  lemma CallKeeps(course: Course, r: Record, call: Call)
    requires WellFormedCourse(course) && Inv(course, r)
    ensures Inv(course, After(course, r, call)) && NoRegress(r, After(course, r, call))
  {
    match call
    case Watch(person, m, resume, watch) =>
      if AfterProgress(course, r, person, m, resume, watch).Ok? {
        PrerequisitesMetMeans(course, r, m);
        AdvanceKeeps(course, r, m, resume, watch);
        var moved := r.(progress := r.progress[m := Advanced(r.progress[m], resume, watch)]);
        EvaluateKeeps(course, moved, m);
        NoRegressTransitive(r, moved, After(course, r, call));
      }
    case Answers(person, m, answers) =>
      if AfterQuiz(course, r, person, m, answers).Ok? {
        var quiz := course.modules[m].quiz.value;
        var score := ScorePercent(|CorrectPositions(quiz, answers)|, |quiz.questions|);
        var a := Attempt(m, score, score >= quiz.passingScore);
        var logged := r.(attempts := r.attempts + [a]);
        AttemptKeeps(course, r, a);
        if a.passed {
          EvaluateKeeps(course, logged, m);
        } else {
          FailedEventKeeps(course, logged, m, score);
        }
        NoRegressTransitive(r, logged, After(course, r, call));
      }
  }

  // ---------- completed means watched and passed ----------

  ghost predicate CompletedWhenReady(course: Course, r: Record) {
    forall m :: m in r.progress && r.progress[m].watch >= 90 && PassedIfAny(course, r, m) ==> IsCompleted(r, m)
  }

  lemma EvaluateCompletes(course: Course, r: Record, m: Id)
    requires m in r.progress
    requires forall x :: x in r.progress && x != m && r.progress[x].watch >= 90 && PassedIfAny(course, r, x) ==> IsCompleted(r, x)
    ensures CompletedWhenReady(course, Evaluate(course, r, m))
  {
    hide CourseReady, RequiredModules, CompletedAmong;
    var next := Evaluate(course, r, m);
    assert next.attempts == r.attempts && next.progress == CompleteModule(course, r, m).progress;
    forall x ensures PassedIfAny(course, next, x) == PassedIfAny(course, r, x) {
    }
  }

  lemma AttemptPasses(r: Record, a: Attempt, x: Id)
    ensures QuizPassed(r.(attempts := r.attempts + [a]), x) <==> QuizPassed(r, x) || (a.quizOf == x && a.passed)
  {
    var next := r.(attempts := r.attempts + [a]);
    AttemptsOnlyHelp(r, next, x);
    if a.quizOf == x && a.passed {
      assert next.attempts[|r.attempts|] == a;
    }
  }

  lemma CallKeepsReady(course: Course, r: Record, call: Call)
    requires CompletedWhenReady(course, r)
    ensures CompletedWhenReady(course, After(course, r, call))
  {
    hide Evaluate, QuizPassed, ValidSheet, PrerequisitesMet, AttemptsAt;
    match call
    case Watch(person, m, resume, watch) =>
      if AfterProgress(course, r, person, m, resume, watch).Ok? {
        var moved := r.(progress := r.progress[m := Advanced(r.progress[m], resume, watch)]);
        SameAttempts(r, moved);
        EvaluateCompletes(course, moved, m);
      }
    case Answers(person, m, answers) =>
      if AfterQuiz(course, r, person, m, answers).Ok? {
        var quiz := course.modules[m].quiz.value;
        var score := ScorePercent(|CorrectPositions(quiz, answers)|, |quiz.questions|);
        var a := Attempt(m, score, score >= quiz.passingScore);
        var logged := r.(attempts := r.attempts + [a]);
        forall x ensures QuizPassed(logged, x) <==> QuizPassed(r, x) || (m == x && a.passed) {
          AttemptPasses(r, a, x);
        }
        if a.passed {
          EvaluateCompletes(course, logged, m);
        } else {
          SameAttempts(logged, logged.(events := logged.events + [QuizAttemptFailed(m, score)]));
        }
      }
  }

  lemma SameAttempts(a: Record, b: Record)
    requires a.attempts == b.attempts
    ensures forall x :: QuizPassed(a, x) == QuizPassed(b, x)
  {
  }

  lemma {:induction false} RunKeepsReady(course: Course, r: Record, calls: seq<Call>)
    requires CompletedWhenReady(course, r)
    ensures CompletedWhenReady(course, RunCalls(course, r, calls))
    decreases |calls|
  {
    hide CompletedWhenReady, After;
    if calls != [] {
      CallKeepsReady(course, r, calls[0]);
      RunKeepsReady(course, After(course, r, calls[0]), calls[1..]);
    }
  }

  lemma FreshIsConsistent(course: Course, owner: Id)
    ensures Inv(course, Fresh(course, owner))
  {
  }

  /**
   * Over any sequence of learner calls: the enrollment is done exactly when the course has a required
   * module and all of them are completed, each completion left exactly one event and at most one
   * certificate, no started module has an open prerequisite, and progress never falls.
   */
  lemma {:induction false} RunKeepsInvariant(course: Course, r: Record, calls: seq<Call>)
    requires WellFormedCourse(course) && Inv(course, r)
    ensures Inv(course, RunCalls(course, r, calls)) && NoRegress(r, RunCalls(course, r, calls))
    decreases |calls|
  {
    if calls != [] {
      var next := After(course, r, calls[0]);
      CallKeeps(course, r, calls[0]);
      RunKeepsInvariant(course, next, calls[1..]);
      NoRegressTransitive(r, next, RunCalls(course, r, calls));
    }
  }

  /** A module's row says what was done: completed means watched to 90 percent and, with a quiz, passed. */
  ghost predicate RowSays(course: Course, r: Record, m: Id)
    requires m in r.progress && m in course.modules
  {
    var p := r.progress[m];
    && 0 <= p.watch <= 100 && 0 <= p.resume
    && (p.status == NotStarted <==> p.watch == 0 && p.resume == 0)
    && (p.status == Completed <==>
          && p.watch >= 90
          && (course.modules[m].quiz.Some? ==> exists i :: 0 <= i < |r.attempts| && r.attempts[i].quizOf == m && r.attempts[i].passed))
    && (p.status != NotStarted ==>
          forall q :: q in Next(course.prerequisites, m) ==> q in r.progress && r.progress[q].status == Completed)
    && multiset(r.events)[ModuleCompleted(m)] == (if p.status == Completed then 1 else 0)
  }

  /** The enrollment is done exactly when there is a required module and all are completed; then, once, event and certificate. */
  ghost predicate EnrollmentSays(course: Course, r: Record)
    requires r.progress.Keys == course.modules.Keys
  {
    && (r.status == Done <==>
          && (exists m :: m in course.modules && course.modules[m].required)
          && forall m :: m in course.modules && course.modules[m].required ==> r.progress[m].status == Completed)
    && multiset(r.events)[CourseCompleted] == (if r.status == Done then 1 else 0)
    && r.certificates == (if r.status == Done && course.certificateEnabled then 1 else 0)
    && multiset(r.events)[CertificateIssued] == r.certificates
  }

  lemma InvSays(course: Course, r: Record)
    requires Inv(course, r)
    ensures r.progress.Keys == course.modules.Keys && EnrollmentSays(course, r)
  {
    hide ProgressJustified, AttemptsJustified;
    assert forall m :: m in RequiredModules(course) <==> m in course.modules && course.modules[m].required;
    assert EventsMatch(course, r);
    RequiredMeans(course);
  }

  lemma ModuleSays(course: Course, r: Record, m: Id)
    requires Inv(course, r) && CompletedWhenReady(course, r) && m in course.modules
    ensures m in r.progress && RowSays(course, r, m)
  {
    hide AttemptsJustified, Finished;
    assert ProgressJustified(course, r, m);
    assert Occurrences(r.events, ModuleCompleted(m)) == if IsCompleted(r, m) then 1 else 0;
  }

  /** After any calls on a fresh enrollment, every row and the enrollment itself say exactly this. */
  lemma EnrollmentHistory(course: Course, owner: Id, calls: seq<Call>)
    requires WellFormedCourse(course)
    ensures var r := RunCalls(course, Fresh(course, owner), calls);
      && r.progress.Keys == course.modules.Keys && EnrollmentSays(course, r)
      && forall m :: m in course.modules ==> RowSays(course, r, m)
  {
    hide WellFormedCourse, RunCalls, Fresh, Inv, CompletedWhenReady, EnrollmentSays, RowSays;
    var r := RunCalls(course, Fresh(course, owner), calls);
    FreshIsConsistent(course, owner);
    FreshIsReady(course, owner);
    RunKeepsInvariant(course, Fresh(course, owner), calls);
    RunKeepsReady(course, Fresh(course, owner), calls);
    InvSays(course, r);
    forall m | m in course.modules ensures RowSays(course, r, m) {
      ModuleSays(course, r, m);
    }
  }

  lemma FreshIsReady(course: Course, owner: Id)
    ensures CompletedWhenReady(course, Fresh(course, owner))
  {
  }
}
