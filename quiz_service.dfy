/** The four use cases on top of the store, and the grading of a whole
    submission (src/services/quizService.js), with the pass mark the HTTP
    controller adds to the grading result (src/controllers/quizController.js). */
module QuizServices {
  import opened Outcomes
  import opened Questions
  import opened Quizzes
  import opened Repository

  /** One entry of a submission: `{questionId, answer}`. */
  datatype Submission = Submission(questionId: nat, answer: Answer)

  /** One entry of the graded results, in submission order. */
  datatype AnswerResult =
    | QuestionNotFound(questionId: nat)
    | Graded(questionId: nat, correct: bool, userAnswer: Answer, correctAnswer: seq<string>)
  {
    predicate IsCorrect()
    {
      Graded? && correct
    }
  }

  /** A percentage: `Math.round` of a finite quotient, or NaN when the quiz
      has no questions (the source divides by zero). */
  datatype Percent = NaN | Whole(value: nat)

  datatype Grading = Grading(score: nat, total: nat, percentage: Percent, passed: bool, results: seq<AnswerResult>)

  /** `Math.round((score / total) * 100)` in exact arithmetic: the integer
      nearest to 100 * score / total, a half rounded upwards. A total of 0
      only ever comes with a score of 0 (an empty quiz finds no question to
      mark correct), where the source computes NaN; a positive score over a
      zero total, which would be Infinity there, never arises. */
  function Percentage(score: nat, total: nat): (r: Percent)
    ensures r.NaN? <==> total == 0
    ensures r.Whole? ==> total * (2 * r.value - 1) <= 200 * score < total * (2 * r.value + 1)
  {
    if total == 0 then NaN
    else
      var q := (200 * score + total) / (2 * total);
      assert 2 * total * q <= 200 * score + total < 2 * total * q + 2 * total;
      Whole(q)
  }

  /** `percentage >= 60`; NaN compares false, so an empty quiz never passes. */
  function Passed(p: Percent): (r: bool)
    ensures p.NaN? ==> !r
    ensures p.Whole? ==> (r <==> p.value >= 60)
  {
    p.Whole? && p.value >= 60
  }

  /** The result entry for one submission: "Question not found" when the
      quiz has no question with that id, else the grade given by the first
      question with that id. */
  function GradeOne(quiz: Quiz, sub: Submission): (r: Result<AnswerResult>)
    ensures r.Ok? ==> r.value.questionId == sub.questionId
    ensures r.Ok? && r.value.QuestionNotFound? <==> GetQuestion(quiz, sub.questionId).None?
  {
    match GetQuestion(quiz, sub.questionId)
    case None => Ok(QuestionNotFound(sub.questionId))
    case Some(q) =>
      match IsCorrectAnswer(q, sub.answer)
      case Err(e) => Err(e)
      case Ok(correct) => Ok(Graded(sub.questionId, correct, sub.answer, q.correctAnswers))
  }

  /** The results of the submissions in order; the first answer whose
      grading throws aborts the whole submission. */
  function GradeAll(quiz: Quiz, subs: seq<Submission>): (r: Result<seq<AnswerResult>>)
    ensures r.Ok? ==> |r.value| == |subs|
  {
    if subs == [] then Ok([])
    else
      match GradeAll(quiz, subs[..|subs| - 1])
      case Err(e) => Err(e)
      case Ok(rs) =>
        match GradeOne(quiz, subs[|subs| - 1])
        case Err(e) => Err(e)
        case Ok(x) => Ok(rs + [x])
  }

  /** The number of results graded correct. */
  function Score(rs: seq<AnswerResult>): (r: nat)
    ensures r <= |rs|
  {
    if rs == [] then 0
    else Score(rs[..|rs| - 1]) + (if rs[|rs| - 1].IsCorrect() then 1 else 0)
  }

  /** The grading of a submission against a quiz, as `submitAnswers`
      returns it together with the controller's `passed` flag. */
  function Evaluate(quiz: Quiz, subs: seq<Submission>): (r: Result<Grading>)
    ensures r.Ok? ==> && r.value.total == |quiz.questions|
                      && |r.value.results| == |subs|
                      && r.value.score <= |subs|
                      && r.value.score == Score(r.value.results)
                      && r.value.percentage == Percentage(r.value.score, r.value.total)
                      && (r.value.passed <==> Passed(r.value.percentage))
    ensures r.Err? ==> r.error == AnswerNotText
  {
    match GradeAll(quiz, subs)
    case Err(e) =>
      GradeAllFailsOnlyOnText(quiz, subs);
      Err(e)
    case Ok(rs) =>
      var score := Score(rs);
      var pct := Percentage(score, |quiz.questions|);
      Ok(Grading(score, |quiz.questions|, pct, Passed(pct), rs))
  }

  lemma {:induction false} GradeAllFailsOnlyOnText(quiz: Quiz, subs: seq<Submission>)
    ensures GradeAll(quiz, subs).Err? ==> GradeAll(quiz, subs).error == AnswerNotText
  {
    if subs != [] {
      GradeAllFailsOnlyOnText(quiz, subs[..|subs| - 1]);
    }
  }

  /** Grading a submission is grading each of its entries on its own. */
  lemma {:induction false} GradeAllPointwise(quiz: Quiz, subs: seq<Submission>)
    ensures GradeAll(quiz, subs).Ok? <==> forall i :: 0 <= i < |subs| ==> GradeOne(quiz, subs[i]).Ok?
    ensures GradeAll(quiz, subs).Ok? ==>
              forall i :: 0 <= i < |subs| ==> GradeAll(quiz, subs).value[i] == GradeOne(quiz, subs[i]).value
  {
    if subs != [] {
      var init := subs[..|subs| - 1];
      GradeAllPointwise(quiz, init);
      assert forall i :: 0 <= i < |init| ==> init[i] == subs[i];
    }
  }

  /** A submission fails as a whole exactly when one of its entries gives
      an array for a text question that has correct answers. */
  lemma EvaluateFailsOnArrayForText(quiz: Quiz, subs: seq<Submission>)
    ensures Evaluate(quiz, subs).Err? <==>
              exists i :: 0 <= i < |subs| && GetQuestion(quiz, subs[i].questionId).Some?
                          && var q := GetQuestion(quiz, subs[i].questionId).value;
                             q.kind == FreeText && subs[i].answer.Arr? && q.correctAnswers != []
  {
    GradeAllPointwise(quiz, subs);
  }

  /** One result per submission, in submission order: an unknown question id
      gives "Question not found" and is never correct; otherwise the entry
      is correct exactly when the first question with that id accepts the
      answer, and it carries the answer and that question's correct answers. */
  lemma ResultsFollowSubmissions(quiz: Quiz, subs: seq<Submission>)
    requires Evaluate(quiz, subs).Ok?
    ensures var rs := Evaluate(quiz, subs).value.results;
            && |rs| == |subs|
            && forall i :: 0 <= i < |subs| ==>
                 && rs[i].questionId == subs[i].questionId
                 && (rs[i].QuestionNotFound? <==> GetQuestion(quiz, subs[i].questionId).None?)
                 && (rs[i].QuestionNotFound? ==> !rs[i].IsCorrect())
                 && (rs[i].Graded? ==>
                       var q := GetQuestion(quiz, subs[i].questionId).value;
                       && rs[i].userAnswer == subs[i].answer
                       && rs[i].correctAnswer == q.correctAnswers
                       && (rs[i].correct <==> IsCorrectAnswer(q, subs[i].answer) == Ok(true)))
  {
    GradeAllPointwise(quiz, subs);
  }

  /** The score counts the results graded correct. */
  lemma {:induction false} ScoreCountsCorrect(rs: seq<AnswerResult>)
    ensures Score(rs) == |set i | 0 <= i < |rs| && rs[i].IsCorrect()|
  {
    if rs != [] {
      var init := rs[..|rs| - 1];
      ScoreCountsCorrect(init);
      var before := set i | 0 <= i < |init| && init[i].IsCorrect();
      var after := set i | 0 <= i < |rs| && rs[i].IsCorrect();
      if rs[|rs| - 1].IsCorrect() {
        assert after == before + {|rs| - 1};
      } else {
        assert after == before;
      }
    }
  }

  /** The score is not bounded by the number of questions: answering the
      same question twice counts twice. */
  lemma ScoreCanExceedTotal()
    ensures var q := Question(1, 1, "2 + 2?", SingleChoice, [Choice("a", "3"), Choice("b", "4")], ["b"], None);
            var quiz := Quiz(1, "Maths", [q]);
            var sub := Submission(1, Str("b"));
            var r := Evaluate(quiz, [sub, sub]);
            r.Ok? && r.value.score == 2 && r.value.total == 1
  {
    var q := Question(1, 1, "2 + 2?", SingleChoice, [Choice("a", "3"), Choice("b", "4")], ["b"], None);
    var quiz := Quiz(1, "Maths", [q]);
    var sub := Submission(1, Str("b"));
    var g := Graded(1, true, Str("b"), ["b"]);
    assert GetQuestion(quiz, 1) == Some(q);
    assert GradeOne(quiz, sub) == Ok(g);
    var subs := [sub, sub];
    GradeAllPointwise(quiz, subs);
    var rs := GradeAll(quiz, subs).value;
    assert rs == [g] + [g] && [g] == [] + [g];
    ScoreStep([], g);
    ScoreStep([g], g);
  }

  /** A quiz without questions answers every submission with "Question not
      found": the score and total are 0, the percentage is NaN and the quiz
      is not passed. */
  lemma {:induction false} EmptyQuizGrading(quiz: Quiz, subs: seq<Submission>)
    requires quiz.questions == []
    ensures Evaluate(quiz, subs).Ok?
    ensures var g := Evaluate(quiz, subs).value;
            g.score == 0 && g.total == 0 && g.percentage == NaN && !g.passed
            && forall i :: 0 <= i < |subs| ==> g.results[i] == QuestionNotFound(subs[i].questionId)
  {
    GradeAllPointwise(quiz, subs);
    var rs := GradeAll(quiz, subs).value;
    assert forall i :: 0 <= i < |rs| ==> !rs[i].IsCorrect();
    ScoreCountsCorrect(rs);
    assert (set i | 0 <= i < |rs| && rs[i].IsCorrect()) == {};
  }

  /** The pass mark in terms of the score: the rounded percentage reaches
      60 exactly when the score is at least 59.5% of the total. */
  lemma PassedIff(score: nat, total: nat)
    requires total > 0
    ensures Passed(Percentage(score, total)) <==> 200 * score >= 119 * total
  {
    var q := Percentage(score, total).value;
    if q >= 60 {
      MulMonotone(total, 119, 2 * q - 1);
    } else {
      MulMonotone(total, 2 * q + 1, 119);
    }
  }

  /** As long as no question is answered twice, the percentage is at most 100. */
  lemma PercentageAtMost100(score: nat, total: nat)
    requires 0 < total && score <= total
    ensures Percentage(score, total).value <= 100
  {
    var q := Percentage(score, total).value;
    if q > 100 {
      MulMonotone(total, 201, 2 * q - 1);
      MulMonotone(total, score, 200);
    }
  }

  lemma MulMonotone(c: nat, a: int, b: int)
    requires a <= b
    ensures c * a <= c * b
  {
  }

  /** The percentages of the test suite's submissions: 3 of 3 is 100 and
      passes, 1 of 3 is 33 and fails; and 1 of 8 is 12.5, rounded up to 13. */
  lemma PercentageExamples()
    ensures Percentage(3, 3) == Whole(100) && Passed(Percentage(3, 3))
    ensures Percentage(1, 3) == Whole(33) && !Passed(Percentage(1, 3))
    ensures Percentage(1, 8) == Whole(13)
  {
  }

  /** Every stored question belongs to its quiz, was validated, and has an
      id the question counter has already handed out. */
  ghost predicate QuestionsConsistent(quiz: Quiz, key: nat, nextQuestionId: nat)
  {
    forall q :: q in quiz.questions ==> q.id < nextQuestionId && q.quizId == key && WellFormed(q)
  }

  class QuizService {
    const store: DataStore

    /** What the service keeps true of the store it owns: every quiz id and
        every question id was drawn from the counters, and every stored
        question passed validation. */
    ghost predicate Valid()
      reads this, store
    {
      && store.Valid()
      && (forall k :: k in store.quizzes ==> k < store.currentQuizId)
      && (forall k :: k in store.quizzes ==> QuestionsConsistent(store.quizzes[k], k, store.currentQuestionId))
    }

    constructor ()
      ensures Valid() && fresh(store)
      ensures store.quizzes == map[] && store.order == []
      ensures store.currentQuizId == 1 && store.currentQuestionId == 1
    {
      store := new DataStore();
    }

    /** `createQuiz(title)`: draws the next quiz id and stores a new, empty
        quiz under it. The id is fresh, so nothing is overwritten. */
    method CreateQuiz(title: string) returns (quiz: Quiz)
      requires Valid()
      modifies store
      ensures Valid()
      ensures quiz == NewQuiz(old(store.currentQuizId), title)
      ensures quiz.id !in old(store.quizzes)
      ensures store.quizzes == old(store.quizzes)[quiz.id := quiz]
      ensures store.order == old(store.order) + [quiz.id]
      ensures store.currentQuizId == old(store.currentQuizId) + 1
      ensures store.currentQuestionId == old(store.currentQuestionId)
    {
      var id := store.GetNextQuizId();
      quiz := store.CreateQuiz(NewQuiz(id, title));
    }

    /** `getAllQuizzes()`: the store's listing. */
    function GetAllQuizzes(): (r: seq<QuizSummary>)
      reads this, store
      requires store.Valid()
      ensures |r| == |store.order| == |store.quizzes|
      ensures forall i :: 0 <= i < |r| ==>
                && r[i].id == store.order[i]
                && store.order[i] in store.quizzes
                && r[i].questionCount == |store.quizzes[store.order[i]].questions|
                && r[i] == Summary(store.quizzes[store.order[i]])
    {
      store.GetAllQuizzes()
    }

    /** `getQuiz(quizId)`: the quiz's summary, or "Quiz not found". */
    function GetQuiz(quizId: nat): (r: Result<QuizSummary>)
      reads this, store
      requires store.Valid()
      ensures r.Err? <==> quizId !in store.quizzes
      ensures r.Err? ==> r.error == QuizNotFound
      ensures r.Ok? ==> && r.value.id == quizId
                        && r.value.title == store.quizzes[quizId].title
                        && r.value.questionCount == |store.quizzes[quizId].questions|
    {
      match store.GetQuiz(quizId)
      case None => Err(QuizNotFound)
      case Some(quiz) => Ok(Summary(quiz))
    }

    /** `addQuestion(quizId, questionData)`: "Quiz not found" before any id
        is drawn; otherwise a question id is drawn first, so a question that
        then fails validation still uses up an id, and a valid one is
        appended to that quiz alone. */
    method AddQuestion(quizId: nat, data: QuestionData) returns (r: Result<Question>)
      requires Valid()
      modifies store
      ensures Valid()
      ensures quizId !in old(store.quizzes) ==>
                r == Err(QuizNotFound) && store.currentQuestionId == old(store.currentQuestionId)
      ensures quizId in old(store.quizzes) ==>
                && r == NewQuestion(old(store.currentQuestionId), quizId, data)
                && store.currentQuestionId == old(store.currentQuestionId) + 1
      ensures r.Ok? ==> store.quizzes == old(store.quizzes)[quizId := Quizzes.AddQuestion(old(store.quizzes)[quizId], r.value)]
      ensures r.Err? ==> store.quizzes == old(store.quizzes)
      ensures r.Ok? ==> forall k, q :: k in old(store.quizzes) && q in old(store.quizzes)[k].questions ==> q.id != r.value.id
      ensures store.order == old(store.order) && store.currentQuizId == old(store.currentQuizId)
    {
      if store.GetQuiz(quizId).None? {
        return Err(QuizNotFound);
      }
      var questionId := store.GetNextQuestionId();
      r := NewQuestion(questionId, quizId, data);
      if r.Ok? {
        r := store.AddQuestionToQuiz(quizId, r.value);
      }
    }

    /** `getQuestionsForTaking(quizId)`: the quiz-taker's view, or "Quiz not found". */
    function GetQuestionsForTaking(quizId: nat): (r: Result<seq<QuestionView>>)
      reads this, store
      ensures r.Err? <==> quizId !in store.quizzes
      ensures r.Err? ==> r.error == QuizNotFound
      ensures r.Ok? ==> |r.value| == |store.quizzes[quizId].questions|
                        && r.value == Quizzes.GetQuestionsForTaking(store.quizzes[quizId])
    {
      store.GetQuestionsForQuiz(quizId)
    }

    /** `submitAnswers(quizId, answers)`: walks the submissions in order,
        counting the correct ones and recording one result per submission. */
    method SubmitAnswers(quizId: nat, answers: seq<Submission>) returns (r: Result<Grading>)
      ensures quizId !in store.quizzes ==> r == Err(QuizNotFound)
      ensures quizId in store.quizzes ==> r == Evaluate(store.quizzes[quizId], answers)
    {
      var found := store.GetQuizWithQuestions(quizId);
      if found.Err? {
        return Err(QuizNotFound);
      }
      var quiz := found.value;
      var correctAnswers := 0;
      var totalQuestions := |quiz.questions|;
      var results := [];
      for i := 0 to |answers|
        invariant GradeAll(quiz, answers[..i]) == Ok(results)
        invariant correctAnswers == Score(results)
      {
        var submission := answers[i];
        GradeAllStep(quiz, answers, i);
        var question := GetQuestion(quiz, submission.questionId);
        if question.None? {
          ScoreStep(results, QuestionNotFound(submission.questionId));
          results := results + [QuestionNotFound(submission.questionId)];
          continue;
        }
        var graded := IsCorrectAnswer(question.value, submission.answer);
        if graded.Err? {
          GradeAllStaysFailed(quiz, answers, i + 1);
          return Err(graded.error);
        }
        var isCorrect := graded.value;
        if isCorrect {
          correctAnswers := correctAnswers + 1;
        }
        var entry := Graded(submission.questionId, isCorrect, submission.answer, question.value.correctAnswers);
        ScoreStep(results, entry);
        results := results + [entry];
      }
      assert answers[..|answers|] == answers;
      var percentage := Percentage(correctAnswers, totalQuestions);
      r := Ok(Grading(correctAnswers, totalQuestions, percentage, Passed(percentage), results));
    }
  }

  /** Grading one more submission extends the results by that entry. */
  lemma GradeAllStep(quiz: Quiz, subs: seq<Submission>, i: nat)
    requires i < |subs|
    requires GradeAll(quiz, subs[..i]).Ok?
    ensures GradeAll(quiz, subs[..i + 1]) ==
              match GradeOne(quiz, subs[i])
              case Err(e) => Err(e)
              case Ok(x) => Ok(GradeAll(quiz, subs[..i]).value + [x])
  {
    assert subs[..i + 1][..i] == subs[..i];
  }

  lemma ScoreStep(rs: seq<AnswerResult>, x: AnswerResult)
    ensures Score(rs + [x]) == Score(rs) + if x.IsCorrect() then 1 else 0
  {
    assert (rs + [x])[..|rs|] == rs;
  }

  /** Once a prefix of the submission has failed, so has the whole of it. */
  lemma {:induction false} GradeAllStaysFailed(quiz: Quiz, subs: seq<Submission>, n: nat)
    requires n <= |subs|
    requires GradeAll(quiz, subs[..n]).Err?
    ensures GradeAll(quiz, subs).Err?
    decreases |subs| - n
  {
    if n < |subs| {
      assert subs[..n + 1][..n] == subs[..n];
      GradeAllStaysFailed(quiz, subs, n + 1);
    } else {
      assert subs[..n] == subs;
    }
  }
}
