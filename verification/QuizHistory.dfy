/** What a quiz call is answered, told on the quiz's own questions and choices. */
module QuizHistory {
  import opened Common
  import opened Learning
  import opened LearningRuns
  import opened CourseCompletable

  /** The answer names a question of the quiz and one of that question's choices, flagged like this. */
  ghost predicate Picks(quiz: Quiz, a: Answer, correct: bool) {
    exists q, c :: q in quiz.questions && c in q.choices && q.id == a.question && c.id == a.choice && c.correct == correct
  }

  /** One answer for every question, each picking one of its choices. */
  ghost predicate FullSheet(quiz: Quiz, answers: seq<Answer>) {
    && |answers| == |quiz.questions|
    && (forall i :: 0 <= i < |answers| ==> Picks(quiz, answers[i], true) || Picks(quiz, answers[i], false))
    && (forall i, j :: 0 <= i < j < |answers| ==> answers[i].question != answers[j].question)
  }

  ghost function RightAnswers(quiz: Quiz, answers: seq<Answer>): set<nat> {
    set i | 0 <= i < |answers| && Picks(quiz, answers[i], true)
  }

  ghost function AttemptsOn(attempts: seq<Attempt>, m: Id): set<nat> {
    set i | 0 <= i < |attempts| && attempts[i].quizOf == m
  }

  lemma {:induction false} AttemptsAreCounted(attempts: seq<Attempt>, m: Id)
    ensures AttemptsAt(attempts, m) == |AttemptsOn(attempts, m)|
    decreases |attempts|
  {
    if attempts != [] {
      var front, last := attempts[..|attempts| - 1], |attempts| - 1;
      AttemptsAreCounted(front, m);
      var before, all := AttemptsOn(front, m), AttemptsOn(attempts, m);
      assert forall i :: 0 <= i < last ==> front[i] == attempts[i];
      assert all == if attempts[last].quizOf == m then before + {last} else before;
      assert last !in before;
    }
  }

  lemma {:induction false} FoundQuestion(questions: seq<Question>, id: Id)
    ensures FindQuestion(questions, id).Some? ==> FindQuestion(questions, id).value in questions && FindQuestion(questions, id).value.id == id
    ensures FindQuestion(questions, id).None? ==> forall q :: q in questions ==> q.id != id
    decreases |questions|
  {
    if questions != [] {
      FoundQuestion(questions[..|questions| - 1], id);
      assert questions == questions[..|questions| - 1] + [questions[|questions| - 1]];
    }
  }

  lemma {:induction false} FoundChoice(choices: seq<Choice>, id: Id)
    ensures FindChoice(choices, id).Some? ==> FindChoice(choices, id).value in choices && FindChoice(choices, id).value.id == id
    ensures FindChoice(choices, id).None? ==> forall c :: c in choices ==> c.id != id
    decreases |choices|
  {
    if choices != [] {
      FoundChoice(choices[1..], id);
      assert choices == [choices[0]] + choices[1..];
    }
  }

  /** With ids unique in the quiz, what the lookup finds is what the quiz holds. */
  lemma PickedMeans(quiz: Quiz, a: Answer)
    requires UniqueIds(quiz)
    ensures PickedChoice(quiz, a).Some? <==> Picks(quiz, a, true) || Picks(quiz, a, false)
    ensures AnswersCorrectly(quiz, a) <==> Picks(quiz, a, true)
  {
    FoundQuestion(quiz.questions, a.question);
    var q := FindQuestion(quiz.questions, a.question);
    if q.Some? {
      FoundChoice(q.value.choices, a.choice);
      forall x, c | x in quiz.questions && c in x.choices && x.id == a.question && c.id == a.choice
        ensures PickedChoice(quiz, a) == Some(c)
      {
        var i :| 0 <= i < |quiz.questions| && quiz.questions[i] == x;
        FindsQuestion(quiz.questions, i);
        var k :| 0 <= k < |x.choices| && x.choices[k] == c;
        FindsChoice(x.choices, k);
      }
    }
  }

  lemma SheetMeans(quiz: Quiz, answers: seq<Answer>)
    requires UniqueIds(quiz)
    ensures ValidSheet(quiz, answers) <==> FullSheet(quiz, answers)
    ensures CorrectPositions(quiz, answers) == RightAnswers(quiz, answers)
  {
    hide UniqueIds, PickedChoice, AnswersCorrectly, Picks;
    forall i | 0 <= i < |answers|
      ensures PickedChoice(quiz, answers[i]).Some? <==> Picks(quiz, answers[i], true) || Picks(quiz, answers[i], false)
      ensures AnswersCorrectly(quiz, answers[i]) <==> Picks(quiz, answers[i], true)
    {
      PickedMeans(quiz, answers[i]);
    }
  }

  /** The attempt says what was answered: the nearest percentage of right answers, full marks for no questions at all. */
  ghost predicate Scores(quiz: Quiz, answers: seq<Answer>, a: Attempt) {
    var right, total := |RightAnswers(quiz, answers)|, |quiz.questions|;
    && (total == 0 ==> a.score == 100)
    && (total > 0 ==> 200 * right - total < (2 * total) * a.score <= 200 * right + total)
    && (a.passed <==> a.score >= quiz.passingScore)
  }

  lemma ScoreIsRight(quiz: Quiz, answers: seq<Answer>, m: Id)
    requires UniqueIds(quiz) && ValidSheet(quiz, answers)
    ensures var score := ScorePercent(|CorrectPositions(quiz, answers)|, |quiz.questions|);
      Scores(quiz, answers, Attempt(m, score, score >= quiz.passingScore))
  {
    hide UniqueIds, ValidSheet, ScorePercent, CorrectPositions, RightAnswers;
    SheetMeans(quiz, answers);
    NoMoreThanAll(quiz, answers);
    if |quiz.questions| > 0 {
      ScoreIsNearest(|CorrectPositions(quiz, answers)|, |quiz.questions|);
    } else {
      EmptyQuizScores(|CorrectPositions(quiz, answers)|);
    }
  }

  lemma EmptyQuizScores(correct: nat)
    ensures ScorePercent(correct, 0) == 100
  {
  }

  lemma NoMoreThanAll(quiz: Quiz, answers: seq<Answer>)
    requires ValidSheet(quiz, answers)
    ensures |CorrectPositions(quiz, answers)| <= |quiz.questions|
  {
    Bounded(CorrectPositions(quiz, answers), |answers|);
  }

  lemma {:induction false} Bounded(s: set<nat>, n: nat)
    requires forall i :: i in s ==> i < n
    ensures |s| <= n
    decreases n
  {
    if n == 0 {
      assert s == {};
    } else {
      Bounded(s - {n - 1}, n - 1);
      assert |s| <= |s - {n - 1}| + 1;
    }
  }

  /**
   * Every answer of a quiz call, each with the case it is for. An accepted sheet adds one attempt that scores it;
   * a passed one then lets the module and the course be completed, a failed one is announced.
   */
  lemma QuizAnswers(course: Course, r: Record, person: Id, m: Id, answers: seq<Answer>)
    requires WellFormedCourse(course) && r.progress.Keys == course.modules.Keys
    ensures var outcome := AfterQuiz(course, r, person, m, answers);
      if person != r.owner || r.status == Withdrawn then outcome == Err(NotEnrolled)
      else if m !in course.modules || course.modules[m].quiz.None? then outcome == Err(QuizNotFound)
      else
        var quiz := course.modules[m].quiz.value;
        if quiz.maxAttempts.Some? && |AttemptsOn(r.attempts, m)| >= quiz.maxAttempts.value then outcome == Err(MaxAttemptsExceeded)
        else if !FullSheet(quiz, answers) then outcome == Err(AnswersInvalid)
        else
          && outcome.Ok? && |outcome.value.attempts| == |r.attempts| + 1 && r.attempts <= outcome.value.attempts
          && var a := outcome.value.attempts[|r.attempts|];
             && a.quizOf == m && Scores(quiz, answers, a)
             && (!a.passed ==> outcome.value == r.(attempts := r.attempts + [a], events := r.events + [QuizAttemptFailed(m, a.score)]))
  {
    hide WellFormedCourse, UniqueIds, ValidSheet, FullSheet, CorrectPositions, ScorePercent, AttemptsAt, AttemptsOn, Scores, Evaluate;
    AttemptsAreCounted(r.attempts, m);
    if m in course.modules && course.modules[m].quiz.Some? {
      var quiz := course.modules[m].quiz.value;
      QuizIdsAreUnique(course, m);
      SheetMeans(quiz, answers);
      if ValidSheet(quiz, answers) {
        ScoreIsRight(quiz, answers, m);
        var score := ScorePercent(|CorrectPositions(quiz, answers)|, |quiz.questions|);
        AttemptsStay(course, r.(attempts := r.attempts + [Attempt(m, score, score >= quiz.passingScore)]), m);
      }
    }
  }

  lemma QuizIdsAreUnique(course: Course, m: Id)
    requires WellFormedCourse(course) && m in course.modules && course.modules[m].quiz.Some?
    ensures UniqueIds(course.modules[m].quiz.value)
  {
  }

  lemma AttemptsStay(course: Course, r: Record, m: Id)
    requires m in r.progress
    ensures Evaluate(course, r, m).attempts == r.attempts
  {
  }
}
