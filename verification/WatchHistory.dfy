/** What the stored progress says: which calls are let in, and the furthest point they reached. */
module WatchHistory {
  import opened Common
  import opened PrerequisiteGraph
  import opened Learning
  import opened LearningRuns

  // ---------- which watch calls are let in ----------

  /**
   * By the enrolled learner, on a module of the course, within range and within the video; and the first advance on a
   * module only once everything it depends on is completed.
   */
  ghost predicate LetIn(course: Course, r: Record, person: Id, m: Id, resume: int, watch: int) {
    && person == r.owner && r.status != Withdrawn
    && m in course.modules && m in r.progress
    && 0 <= resume && 0 <= watch <= 100
    && (course.modules[m].duration.Some? ==> resume <= course.modules[m].duration.value)
    && ((watch > r.progress[m].watch || resume > r.progress[m].resume) && r.progress[m].status == NotStarted ==>
          forall q :: q in Next(course.prerequisites, m) ==> q in r.progress && r.progress[q].status == Completed)
  }

  lemma LetInExactlyWhen(course: Course, r: Record, person: Id, m: Id, resume: int, watch: int)
    requires NoDuplicates(Next(course.prerequisites, m))
    ensures AfterProgress(course, r, person, m, resume, watch).Ok? <==> LetIn(course, r, person, m, resume, watch)
  {
    hide PrerequisitesMet, Evaluate;
    PrerequisitesMetMeans(course, r, m);
  }

  /** Every answer of a watch call, each with the case it is for; the checks come in this order. */
  lemma WatchAnswers(course: Course, r: Record, person: Id, m: Id, resume: int, watch: int)
    requires NoDuplicates(Next(course.prerequisites, m))
    ensures var outcome := AfterProgress(course, r, person, m, resume, watch);
      if person != r.owner || r.status == Withdrawn then outcome == Err(NotEnrolled)
      else if m !in course.modules then outcome == Err(ModuleNotFound)
      else if resume < 0 || watch < 0 || 100 < watch then outcome == Err(InputInvalid)
      else if course.modules[m].duration.Some? && course.modules[m].duration.value < resume then outcome == Err(ResumePositionExceedsDuration)
      else if m !in r.progress then outcome == Err(ProgressRowMissing)
      else if LetIn(course, r, person, m, resume, watch) then outcome.Ok? else outcome == Err(PrerequisitesNotMet)
  {
    hide PrerequisitesMet, Evaluate;
    PrerequisitesMetMeans(course, r, m);
  }

  // ---------- what one call stores ----------

  /** The module a call is about. */
  function Target(call: Call): Id {
    match call
    case Watch(_, m, _, _) => m
    case Answers(_, m, _) => m
  }

  lemma EvaluateStores(course: Course, r: Record, m: Id, x: Id)
    requires m in r.progress && x in r.progress
    ensures x in Evaluate(course, r, m).progress
    ensures Evaluate(course, r, m).progress[x].watch == r.progress[x].watch
    ensures Evaluate(course, r, m).progress[x].resume == r.progress[x].resume
    ensures x != m ==> Evaluate(course, r, m).progress[x] == r.progress[x]
    ensures r.progress[x].status == Completed ==> Evaluate(course, r, m).progress[x] == r.progress[x]
  {
    hide RequiredModules, CompletedAmong, CourseReady, PassedIfAny;
  }

  /** No call on another module changes a module's progress, and no answers change how far it was watched. */
  lemma OthersStay(course: Course, r: Record, call: Call, x: Id)
    requires x in r.progress
    ensures x in After(course, r, call).progress
    ensures Target(call) != x ==> After(course, r, call).progress[x] == r.progress[x]
    ensures call.Answers? ==>
      After(course, r, call).progress[x].watch == r.progress[x].watch && After(course, r, call).progress[x].resume == r.progress[x].resume
  {
    hide Evaluate, ValidSheet, PrerequisitesMet, AttemptsAt;
    match call
    case Watch(person, m, resume, watch) =>
      if AfterProgress(course, r, person, m, resume, watch).Ok? {
        EvaluateStores(course, r.(progress := r.progress[m := Advanced(r.progress[m], resume, watch)]), m, x);
      }
    case Answers(person, m, answers) =>
      if AfterQuiz(course, r, person, m, answers).Ok? && m in r.progress {
        var quiz := course.modules[m].quiz.value;
        var score := ScorePercent(|CorrectPositions(quiz, answers)|, |quiz.questions|);
        EvaluateStores(course, r.(attempts := r.attempts + [Attempt(m, score, score >= quiz.passingScore)]), m, x);
      }
  }

  /** The call reaches the stored row: it is let in, and the module is not completed yet. */
  ghost predicate Stores(course: Course, r: Record, call: Call, m: Id) {
    && call.Watch? && call.m == m && LetIn(course, r, call.person, m, call.resume, call.watch)
    && r.progress[m].status != Completed
  }

  /** A call that reaches the row raises it to what was watched; any other call leaves the two numbers alone. */
  lemma CallStores(course: Course, r: Record, call: Call, m: Id)
    requires m in r.progress && forall x :: NoDuplicates(Next(course.prerequisites, x))
    ensures m in After(course, r, call).progress
    ensures var before, after := r.progress[m], After(course, r, call).progress[m];
      if Stores(course, r, call, m) then
        && after.watch == (if before.watch < call.watch then call.watch else before.watch)
        && after.resume == (if before.resume < call.resume then call.resume else before.resume)
      else after.watch == before.watch && after.resume == before.resume
  {
    hide LetIn, Evaluate;
    OthersStay(course, r, call, m);
    if call.Watch? && call.m == m {
      LetInExactlyWhen(course, r, call.person, m, call.resume, call.watch);
      if AfterProgress(course, r, call.person, m, call.resume, call.watch).Ok? {
        EvaluateStores(course, r.(progress := r.progress[m := Advanced(r.progress[m], call.resume, call.watch)]), m, m);
      }
    }
  }

  // ---------- over whole runs ----------

  /** The i-th call of a run reached the row of module `m`. */
  ghost predicate Reached(course: Course, owner: Id, calls: seq<Call>, m: Id, i: int) {
    0 <= i < |calls| && calls[i].Watch? && Stores(course, RunCalls(course, Fresh(course, owner), calls[..i]), calls[i], m)
  }

  lemma ReachedSnoc(course: Course, owner: Id, calls: seq<Call>, call: Call, m: Id, i: int)
    ensures 0 <= i < |calls| ==> (Reached(course, owner, calls + [call], m, i) <==> Reached(course, owner, calls, m, i))
    ensures Reached(course, owner, calls + [call], m, |calls|) <==> Stores(course, RunCalls(course, Fresh(course, owner), calls), call, m)
  {
    var all := calls + [call];
    assert all[..|calls|] == calls;
    if 0 <= i < |calls| {
      assert all[..i] == calls[..i] && all[i] == calls[i];
    }
  }

  lemma RunSnoc(course: Course, r: Record, calls: seq<Call>, call: Call)
    ensures RunCalls(course, r, calls + [call]) == After(course, RunCalls(course, r, calls), call)
  {
    hide After;
    RunConcat(course, r, calls, [call]);
    assert [call][1..] == [];
  }

  /** The number is at least every one reached, and is one of them or still zero. */
  ghost predicate IsFurthestWatch(course: Course, owner: Id, calls: seq<Call>, m: Id, watch: int) {
    && (forall i :: Reached(course, owner, calls, m, i) ==> calls[i].watch <= watch)
    && (watch == 0 || exists i :: Reached(course, owner, calls, m, i) && calls[i].watch == watch)
  }

  ghost predicate IsFurthestResume(course: Course, owner: Id, calls: seq<Call>, m: Id, resume: int) {
    && (forall i :: Reached(course, owner, calls, m, i) ==> calls[i].resume <= resume)
    && (resume == 0 || exists i :: Reached(course, owner, calls, m, i) && calls[i].resume == resume)
  }

  lemma ReachedAreWatches(course: Course, owner: Id, calls: seq<Call>, m: Id)
    ensures forall i :: Reached(course, owner, calls, m, i) ==> 0 <= i < |calls| && calls[i].Watch?
  {
  }

  lemma ReachedAre(course: Course, owner: Id, calls: seq<Call>, call: Call, m: Id)
    ensures forall i :: Reached(course, owner, calls, m, i) ==> 0 <= i < |calls| && calls[i].Watch?
    ensures forall i :: Reached(course, owner, calls + [call], m, i) <==>
      Reached(course, owner, calls, m, i) || (i == |calls| && Stores(course, RunCalls(course, Fresh(course, owner), calls), call, m))
  {
    hide RunCalls, LetIn;
    ReachedAreWatches(course, owner, calls, m);
    ReachedAreWatches(course, owner, calls + [call], m);
    forall i ensures Reached(course, owner, calls + [call], m, i) <==>
        Reached(course, owner, calls, m, i) || (i == |calls| && Stores(course, RunCalls(course, Fresh(course, owner), calls), call, m))
    {
      ReachedSnoc(course, owner, calls, call, m, i);
    }
  }

  lemma FurthestWatchSnoc(course: Course, owner: Id, calls: seq<Call>, call: Call, m: Id, watch: int)
    requires IsFurthestWatch(course, owner, calls, m, watch) && watch >= 0
    ensures IsFurthestWatch(course, owner, calls + [call], m,
              if Stores(course, RunCalls(course, Fresh(course, owner), calls), call, m) && watch < call.watch then call.watch else watch)
  {
    hide RunCalls, LetIn, Reached;
    var all := calls + [call];
    ReachedAre(course, owner, calls, call, m);
    assert all[|calls|] == call && forall i :: 0 <= i < |calls| ==> all[i] == calls[i];
    if watch > 0 {
      ReachedAreWatches(course, owner, calls, m);
      var i :| Reached(course, owner, calls, m, i) && calls[i].watch == watch;
      assert Reached(course, owner, all, m, i) && all[i].watch == watch;
    }
  }

  lemma FurthestResumeSnoc(course: Course, owner: Id, calls: seq<Call>, call: Call, m: Id, resume: int)
    requires IsFurthestResume(course, owner, calls, m, resume) && resume >= 0
    ensures IsFurthestResume(course, owner, calls + [call], m,
              if Stores(course, RunCalls(course, Fresh(course, owner), calls), call, m) && resume < call.resume then call.resume else resume)
  {
    hide RunCalls, LetIn, Reached;
    var all := calls + [call];
    ReachedAre(course, owner, calls, call, m);
    assert all[|calls|] == call && forall i :: 0 <= i < |calls| ==> all[i] == calls[i];
    if resume > 0 {
      ReachedAreWatches(course, owner, calls, m);
      var i :| Reached(course, owner, calls, m, i) && calls[i].resume == resume;
      assert Reached(course, owner, all, m, i) && all[i].resume == resume;
    }
  }

  /**
   * After any calls on a fresh enrollment, each module's stored percentage and position are the furthest that any call
   * let in reached before the module was completed, and zero if there was none.
   */
  lemma {:induction false} StoredIsFurthest(course: Course, owner: Id, calls: seq<Call>, m: Id)
    requires WellFormedCourse(course) && m in course.modules
    ensures var r := RunCalls(course, Fresh(course, owner), calls);
      && m in r.progress && r.progress[m].watch >= 0 && r.progress[m].resume >= 0
      && IsFurthestWatch(course, owner, calls, m, r.progress[m].watch)
      && IsFurthestResume(course, owner, calls, m, r.progress[m].resume)
    decreases |calls|
  {
    hide WellFormedCourse, Stores, After, IsFurthestWatch, IsFurthestResume;
    if calls == [] {
      FreshIsZero(course, owner, m);
    } else {
      var front, call := calls[..|calls| - 1], calls[|calls| - 1];
      assert front + [call] == calls;
      StoredIsFurthest(course, owner, front, m);
      var r := RunCalls(course, Fresh(course, owner), front);
      RunSnoc(course, Fresh(course, owner), front, call);
      NoDoubleEdges(course);
      CallStores(course, r, call, m);
      FurthestWatchSnoc(course, owner, front, call, m, r.progress[m].watch);
      FurthestResumeSnoc(course, owner, front, call, m, r.progress[m].resume);
    }
  }

  lemma NoDoubleEdges(course: Course)
    requires WellFormedCourse(course)
    ensures forall x :: NoDuplicates(Next(course.prerequisites, x))
  {
  }

  lemma FreshIsZero(course: Course, owner: Id, m: Id)
    requires m in course.modules
    ensures var r := RunCalls(course, Fresh(course, owner), []); m in r.progress && r.progress[m] == Progress(NotStarted, 0, 0)
    ensures IsFurthestWatch(course, owner, [], m, 0) && IsFurthestResume(course, owner, [], m, 0)
  {
  }
}
