/** Building a course module by module; whatever is asked for, the stored course stays well-formed. */
module CourseAuthoring {
  import opened Common
  import opened PrerequisiteGraph
  import opened Learning
  import opened LearningRuns
  import opened CourseCompletable

  /** For each question, for each choice, whether it is flagged correct. Prompts and labels are carried unread. */
  type QuestionFlags = seq<seq<bool>>

  datatype QuizInput = QuizInput(passingScore: int, maxAttempts: Option<int>, questions: QuestionFlags)
  datatype ModuleInput = ModuleInput(sequence: int, required: bool, prerequisites: seq<Id>, quiz: Option<QuizInput>)

  datatype AuthoringError =
    | ModuleNotInCourse
    | PassingScoreInvalid
    | QuestionMissingCorrectChoice
    | PrerequisiteCycle
    | SequenceTaken

  predicate AcceptableQuiz(quiz: QuizInput) {
    && 1 <= quiz.passingScore <= 100
    && forall i :: 0 <= i < |quiz.questions| ==> true in quiz.questions[i]
  }

  function Flags(choices: seq<Choice>): seq<bool> {
    seq(|choices|, i requires 0 <= i < |choices| => choices[i].correct)
  }

  /** The stored questions carry exactly the requested flags, in order. */
  predicate Stores(questions: seq<Question>, flags: QuestionFlags) {
    |questions| == |flags| && forall i :: 0 <= i < |flags| ==> Flags(questions[i].choices) == flags[i]
  }

  // ---------- prerequisite rows and the edge map built from them ----------

  type PrerequisiteRow = (Id, Id)

  function EdgesOf(rows: seq<PrerequisiteRow>): Edges {
    if rows == [] then map[]
    else
      var edges, last := EdgesOf(rows[..|rows| - 1]), rows[|rows| - 1];
      edges[last.0 := Next(edges, last.0) + [last.1]]
  }

  function RowsFor(m: Id, ps: seq<Id>): seq<PrerequisiteRow> {
    if ps == [] then [] else RowsFor(m, ps[..|ps| - 1]) + [(m, ps[|ps| - 1])]
  }

  method BuildEdgeMap(rows: seq<PrerequisiteRow>) returns (edges: Edges)
    ensures edges == EdgesOf(rows)
  {
    edges := map[];
    for i := 0 to |rows|
      invariant edges == EdgesOf(rows[..i])
    {
      var list := if rows[i].0 in edges then edges[rows[i].0] else [];
      edges := edges[rows[i].0 := list + [rows[i].1]];
      assert rows[..i + 1][..i] == rows[..i];
    }
    assert rows[..|rows|] == rows;
  }

  lemma EdgesOfSnoc(rows: seq<PrerequisiteRow>, row: PrerequisiteRow, x: Id)
    ensures Next(EdgesOf(rows + [row]), x) == Next(EdgesOf(rows), x) + if x == row.0 then [row.1] else []
  {
  }

  lemma {:induction false} EdgesOfAppend(rows: seq<PrerequisiteRow>, m: Id, ps: seq<Id>, x: Id)
    ensures Next(EdgesOf(rows + RowsFor(m, ps)), x) == Next(EdgesOf(rows), x) + if x == m then ps else []
    decreases |ps|
  {
    if ps == [] {
      assert rows + RowsFor(m, ps) == rows;
    } else {
      var front, last := ps[..|ps| - 1], ps[|ps| - 1];
      var base := rows + RowsFor(m, front);
      assert rows + RowsFor(m, ps) == base + [(m, last)];
      EdgesOfAppend(rows, m, front, x);
      EdgesOfSnoc(base, (m, last), x);
      AppendLast(Next(EdgesOf(rows), x), ps);
    }
  }

  lemma {:induction false} EdgesOfMember(rows: seq<PrerequisiteRow>, m: Id, p: Id)
    ensures p in Next(EdgesOf(rows), m) <==> (m, p) in rows
  {
    if rows != [] {
      var front, last := rows[..|rows| - 1], rows[|rows| - 1];
      EdgesOfMember(front, m, p);
      assert rows == front + [last];
    }
  }

  lemma AcyclicBySameNext(a: Edges, b: Edges)
    requires Acyclic(a) && forall x :: Next(a, x) == Next(b, x)
    ensures Acyclic(b)
  {
  }

  lemma NoEdgesAcyclic(edges: Edges)
    requires forall x :: Next(edges, x) == []
    ensures Acyclic(edges)
  {
    forall p | IsPath(edges, p) && |p| > 1 ensures p[0] != p[|p| - 1] {
      FirstEdge(edges, p);
    }
  }

  lemma FirstEdge(edges: Edges, path: seq<Id>)
    requires IsPath(edges, path) && |path| > 1
    ensures path[1] in Next(edges, path[0])
  {
  }

  lemma LastEdge(edges: Edges, path: seq<Id>, p: Id, m: Id)
    requires PathBetween(edges, path, p, m) && p != m
    ensures |path| > 1 && m in Next(edges, path[|path| - 2])
  {
  }

  /** A module nobody depends on is reached only from itself, so it can close no loop. */
  lemma FreshModuleIsNotReached(edges: Edges, m: Id, p: Id)
    requires p != m && forall x :: m !in Next(edges, x)
    ensures !Reaches(edges, p, m)
  {
    forall path | PathBetween(edges, path, p, m) ensures false {
      LastEdge(edges, path, p, m);
    }
  }

  lemma AddedEdgesStayAcyclic(course: Course, m: Id, ps: seq<Id>, grown: Edges)
    requires WellFormedCourse(course) && m !in course.modules
    requires forall p :: p in ps ==> p in course.modules
    requires forall x :: Next(grown, x) == Next(course.prerequisites, x) + if x == m then ps else []
    ensures Acyclic(grown)
  {
    forall p | p in ps ensures !(m == p || Reaches(course.prerequisites, p, m)) {
      FreshModuleIsNotReached(course.prerequisites, m, p);
    }
    BatchedEdgesKeepAcyclic(course.prerequisites, m, ps);
    AcyclicBySameNext(AddEdges(course.prerequisites, m, ps), grown);
  }

  lemma UnknownModuleHasNoPrerequisites(course: Course, m: Id)
    requires WellFormedCourse(course) && m !in course.modules
    ensures Next(course.prerequisites, m) == []
  {
    if Next(course.prerequisites, m) != [] {
      FirstIsMember(Next(course.prerequisites, m));
    }
  }

  /** One accepted request keeps the course well-formed. */
  lemma AddedModuleKeepsWellFormed(course: Course, m: Id, added: Module, ps: seq<Id>, grown: Course)
    requires WellFormedCourse(course) && NoDuplicates(ps) && m !in course.modules
    requires forall p :: p in ps ==> p in course.modules
    requires added.quiz.Some? ==> WellFormedQuiz(added.quiz.value)
    requires grown.modules == course.modules[m := added]
    requires forall x :: Next(grown.prerequisites, x) == Next(course.prerequisites, x) + if x == m then ps else []
    ensures WellFormedCourse(grown)
  {
    AddedEdgesStayAcyclic(course, m, ps, grown.prerequisites);
    UnknownModuleHasNoPrerequisites(course, m);
    forall x ensures NoDuplicates(Next(grown.prerequisites, x)) {
      assert NoDuplicates(Next(course.prerequisites, x));
    }
  }

  lemma AddedRowsKeepWellFormed(course: Course, rows: seq<PrerequisiteRow>, m: Id, added: Module, ps: seq<Id>)
    requires WellFormedCourse(course) && course.prerequisites == EdgesOf(rows)
    requires NoDuplicates(ps) && m !in course.modules && forall p :: p in ps ==> p in course.modules
    requires added.quiz.Some? ==> WellFormedQuiz(added.quiz.value)
    ensures WellFormedCourse(Course(course.modules[m := added], EdgesOf(rows + RowsFor(m, ps)), course.certificateEnabled))
  {
    hide WellFormedCourse, WellFormedQuiz, EdgesOf, RowsFor, NoDuplicates, Next;
    var grown := Course(course.modules[m := added], EdgesOf(rows + RowsFor(m, ps)), course.certificateEnabled);
    forall x ensures Next(grown.prerequisites, x) == Next(course.prerequisites, x) + if x == m then ps else [] {
      EdgesOfAppend(rows, m, ps, x);
    }
    AddedModuleKeepsWellFormed(course, m, added, ps, grown);
  }

  /** What a request is refused for, in the order the checks are made; `None` when it is accepted. */
  function Refusal(modules: set<Id>, taken: set<int>, input: ModuleInput): Option<AuthoringError> {
    if exists p :: p in input.prerequisites && p !in modules then Some(ModuleNotInCourse)
    else if input.quiz.Some? && !(1 <= input.quiz.value.passingScore <= 100) then Some(PassingScoreInvalid)
    else if input.quiz.Some? && !AcceptableQuiz(input.quiz.value) then Some(QuestionMissingCorrectChoice)
    else if input.sequence in taken then Some(SequenceTaken)
    else None
  }

  // ---------- the store ----------

  class CourseStore {
    const certificateEnabled: bool
    var modules: map<Id, Module>
    var sequences: map<Id, int>
    var prerequisiteRows: seq<PrerequisiteRow>
    var nextId: Id

    ghost function Model(): Course
      reads this
    {
      Course(modules, EdgesOf(prerequisiteRows), certificateEnabled)
    }

    ghost predicate Valid()
      reads this
    {
      && WellFormedCourse(Model())
      && (forall m :: m in modules ==> m < nextId)
      && sequences.Keys == modules.Keys
      && (forall a, b :: a in sequences && b in sequences && a != b ==> sequences[a] != sequences[b])
    }

    constructor (certificateEnabled: bool)
      ensures Valid() && modules == map[] && this.certificateEnabled == certificateEnabled
    {
      this.certificateEnabled := certificateEnabled;
      modules, sequences, prerequisiteRows, nextId := map[], map[], [], 0;
      new;
      NoEdgesAcyclic(Model().prerequisites);
    }

    method NewId() returns (id: Id)
      modifies this`nextId
      ensures id == old(nextId) && nextId == id + 1
    {
      id := nextId;
      nextId := nextId + 1;
    }

    /** The nested insert loops: every question and every choice gets an id of its own. */
    method InsertQuestions(flags: QuestionFlags) returns (questions: seq<Question>)
      modifies this`nextId
      ensures nextId >= old(nextId)
      ensures Stores(questions, flags)
      ensures UniqueIds(Quiz(0, None, questions))
    {
      questions := [];
      for i := 0 to |flags|
        invariant nextId >= old(nextId) && |questions| == i
        invariant forall k :: 0 <= k < i ==> Flags(questions[k].choices) == flags[k] && questions[k].id < nextId
        invariant forall a, b :: 0 <= a < b < i ==> questions[a].id != questions[b].id
        invariant forall q :: q in questions ==> forall a, b :: 0 <= a < b < |q.choices| ==> q.choices[a].id != q.choices[b].id
      {
        var questionId := NewId();
        var choices := InsertChoices(flags[i]);
        questions := questions + [Question(questionId, choices)];
      }
    }

    method InsertChoices(flags: seq<bool>) returns (choices: seq<Choice>)
      modifies this`nextId
      ensures nextId >= old(nextId)
      ensures Flags(choices) == flags
      ensures forall a, b :: 0 <= a < b < |choices| ==> choices[a].id != choices[b].id
    {
      choices := [];
      for i := 0 to |flags|
        invariant nextId >= old(nextId) && |choices| == i
        invariant forall k :: 0 <= k < i ==> choices[k].correct == flags[k] && choices[k].id < nextId
        invariant forall a, b :: 0 <= a < b < i ==> choices[a].id != choices[b].id
      {
        var id := NewId();
        choices := choices + [Choice(id, flags[i])];
      }
    }

    /** The quiz checks: the score range first, then the questions in order. */
    method CheckQuiz(quiz: QuizInput) returns (problem: Option<AuthoringError>)
      ensures problem.None? <==>
              1 <= quiz.passingScore <= 100 && forall i :: 0 <= i < |quiz.questions| ==> true in quiz.questions[i]
      ensures problem.Some? ==>
        problem.value == if 1 <= quiz.passingScore <= 100 then QuestionMissingCorrectChoice else PassingScoreInvalid
    {
      if quiz.passingScore < 1 || quiz.passingScore > 100 {
        return Some(PassingScoreInvalid);
      }
      for i := 0 to |quiz.questions|
        invariant forall k :: 0 <= k < i ==> true in quiz.questions[k]
      {
        if true !in quiz.questions[i] {
          return Some(QuestionMissingCorrectChoice);
        }
      }
      return None;
    }

    /** The check of every requested edge against the stored graph. */
    method AnyCycle(moduleId: Id, prerequisites: seq<Id>) returns (cycle: bool)
      requires Valid() && moduleId !in modules
      requires forall p :: p in prerequisites ==> p in modules
      ensures !cycle
    {
      var edges := BuildEdgeMap(prerequisiteRows);
      for i := 0 to |prerequisites| {
        cycle := WouldCreateCycle(edges, moduleId, prerequisites[i]);
        NotReached(Model(), moduleId, prerequisites[i]);
        if cycle {
          return true;
        }
      }
      return false;
    }

    /** The transaction: the module row, its prerequisite rows, and its quiz. */
    method InsertModule(moduleId: Id, input: ModuleInput, prerequisites: seq<Id>)
      requires Valid() && moduleId !in modules && moduleId < nextId
      requires NoDuplicates(prerequisites) && forall p :: p in prerequisites ==> p in modules
      requires input.quiz.Some? ==> AcceptableQuiz(input.quiz.value)
      requires input.sequence !in sequences.Values
      modifies this
      ensures Valid() && moduleId in modules
      ensures modules == old(modules)[moduleId := modules[moduleId]]
      ensures StoredAs(modules[moduleId], input)
      ensures sequences == old(sequences)[moduleId := input.sequence]
      ensures prerequisiteRows == old(prerequisiteRows) + RowsFor(moduleId, prerequisites)
    {
      hide WellFormedCourse, WellFormedQuiz, AcceptableQuiz, Stores, UniqueIds, EdgesOf, RowsFor, NoDuplicates;
      ghost var before := Model();
      var quiz: Option<Quiz> := None;
      if input.quiz.Some? {
        var _ := NewId();
        var questions := InsertQuestions(input.quiz.value.questions);
        quiz := Some(Quiz(input.quiz.value.passingScore, input.quiz.value.maxAttempts, questions));
        StoredQuizIsWellFormed(quiz.value, input.quiz.value);
      }
      modules := modules[moduleId := Module(input.required, None, quiz)];
      sequences := sequences[moduleId := input.sequence];
      prerequisiteRows := prerequisiteRows + RowsFor(moduleId, prerequisites);
      AddedRowsKeepWellFormed(before, old(prerequisiteRows), moduleId, modules[moduleId], prerequisites);
    }

    method AddModule(input: ModuleInput) returns (r: Result<Id, AuthoringError>)
      requires Valid()
      modifies this
      ensures Valid()
      ensures r.Ok? <==>
              && (forall p :: p in input.prerequisites ==> p in old(modules))
              && (input.quiz.Some? ==>
                    && 1 <= input.quiz.value.passingScore <= 100
                    && forall i :: 0 <= i < |input.quiz.value.questions| ==> true in input.quiz.value.questions[i])
              && input.sequence !in old(sequences).Values
      ensures r.Err? ==> Some(r.error) == Refusal(old(modules).Keys, old(sequences).Values, input)
      ensures r.Err? ==> Model() == old(Model()) && sequences == old(sequences)
      ensures r.Ok? ==>
        var m := r.value;
        && m !in old(modules) && m in modules
        && modules == old(modules)[m := modules[m]] && StoredAs(modules[m], input)
        && sequences == old(sequences)[m := input.sequence]
        && prerequisiteRows == old(prerequisiteRows) + RowsFor(m, Distinct(input.prerequisites))
    {
      hide WellFormedCourse, StoredAs, RowsFor, EdgesOf, NoDuplicates;
      var prerequisites := Distinct(input.prerequisites);
      if exists p :: p in prerequisites && p !in modules {
        return Err(ModuleNotInCourse);
      }
      if input.quiz.Some? {
        var problem := CheckQuiz(input.quiz.value);
        if problem.Some? {
          return Err(problem.value);
        }
      }
      var moduleId := NewId();
      var cycle := AnyCycle(moduleId, prerequisites);
      if cycle {
        return Err(PrerequisiteCycle);
      }
      if input.sequence in sequences.Values {
        return Err(SequenceTaken);
      }
      InsertModule(moduleId, input, prerequisites);
      return Ok(moduleId);
    }
  }

  /** The stored module is the requested one, every question and choice included. */
  predicate StoredAs(stored: Module, input: ModuleInput) {
    && stored.required == input.required && stored.duration == None
    && (stored.quiz.Some? <==> input.quiz.Some?)
    && (input.quiz.Some? ==>
          && stored.quiz.value.passingScore == input.quiz.value.passingScore
          && stored.quiz.value.maxAttempts == input.quiz.value.maxAttempts
          && Stores(stored.quiz.value.questions, input.quiz.value.questions))
  }

  lemma NotReached(course: Course, m: Id, p: Id)
    requires WellFormedCourse(course) && m !in course.modules && p in course.modules
    ensures !(m == p || Reaches(course.prerequisites, p, m))
  {
    FreshModuleIsNotReached(course.prerequisites, m, p);
  }

  lemma StoredQuizIsWellFormed(quiz: Quiz, input: QuizInput)
    requires AcceptableQuiz(input) && quiz.passingScore == input.passingScore
    requires Stores(quiz.questions, input.questions) && UniqueIds(Quiz(0, None, quiz.questions))
    ensures WellFormedQuiz(quiz)
  {
  }

  /**
   * `AddModule` checks no attempt limit, so it accepts a required module whose quiz may be attempted
   * zero times; nobody can ever complete a course holding one.
   */
  lemma ZeroAttemptsNeverCompletes(course: Course, m: Id, owner: Id)
    requires WellFormedCourse(course) && m in RequiredModules(course)
    requires course.modules[m].quiz.Some? && course.modules[m].quiz.value.maxAttempts == Some(0)
    ensures !Completable(course, owner)
  {
    RequiredIsNeeded(course, m);
    assert !Attemptable(course, m);
    CompletableExactlyWhen(course, owner);
  }
}
