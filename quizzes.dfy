/** The quiz aggregate: an ordered list of questions and the view of it that
    is shown to a quiz-taker (src/models/Quiz.js). */
module Quizzes {
  import opened Outcomes
  import opened Questions

  /** A quiz. The store keeps quizzes as values, so `addQuestion`, which
      pushes onto the question array in place, is `AddQuestion` returning
      the updated value. The creation timestamp is not modelled. */
  datatype Quiz = Quiz(id: nat, title: string, questions: seq<Question>)

  /** What a quiz-taker sees of a question: no correct answers, no quiz id. */
  datatype QuestionView = QuestionView(
    id: nat,
    text: string,
    kind: QuestionType,
    options: seq<Choice>,
    wordLimit: Option<int>)

  /** `new Quiz(id, title)`. */
  function NewQuiz(id: nat, title: string): (r: Quiz)
    ensures r.id == id && r.title == title
    ensures |r.questions| == 0
  {
    Quiz(id, title, [])
  }

  /** `addQuestion(question)`: appends at the end; the earlier questions,
      the id and the title are unchanged. */
  function AddQuestion(quiz: Quiz, q: Question): (r: Quiz)
    ensures r.id == quiz.id && r.title == quiz.title
    ensures |r.questions| == |quiz.questions| + 1
    ensures r.questions[..|quiz.questions|] == quiz.questions
    ensures r.questions[|quiz.questions|] == q
  {
    quiz.(questions := quiz.questions + [q])
  }

  /** The position of the first question with the given id. */
  function IndexOfQuestion(questions: seq<Question>, questionId: nat): (r: Option<nat>)
    ensures r.Some? ==> && r.value < |questions|
                        && questions[r.value].id == questionId
                        && forall j :: 0 <= j < r.value ==> questions[j].id != questionId
    ensures r.None? ==> forall j :: 0 <= j < |questions| ==> questions[j].id != questionId
  {
    if questions == [] then None
    else if questions[0].id == questionId then Some(0)
    else match IndexOfQuestion(questions[1..], questionId)
      case None => None
      case Some(k) => Some(k + 1)
  }

  /** `getQuestion(questionId)`: `find` returns the first question carrying
      that id, or nothing when no question does. */
  function GetQuestion(quiz: Quiz, questionId: nat): (r: Option<Question>)
    ensures r.None? <==> forall j :: 0 <= j < |quiz.questions| ==> quiz.questions[j].id != questionId
    ensures r.Some? ==> exists i :: && 0 <= i < |quiz.questions|
                                    && quiz.questions[i] == r.value
                                    && r.value.id == questionId
                                    && forall j :: 0 <= j < i ==> quiz.questions[j].id != questionId
  {
    match IndexOfQuestion(quiz.questions, questionId)
    case None => None
    case Some(i) => Some(quiz.questions[i])
  }

  /** `getAllQuestions()`: the stored list itself. */
  function GetAllQuestions(quiz: Quiz): (r: seq<Question>)
    ensures |r| == |quiz.questions|
    ensures forall i :: 0 <= i < |r| ==> r[i] == quiz.questions[i]
  {
    quiz.questions
  }

  /** The per-question projection: the view keeps id, text, type, options
      and word limit, and nothing else. */
  function View(q: Question): (r: QuestionView)
    ensures r.id == q.id && r.text == q.text && r.kind == q.kind
    ensures r.options == q.options && r.wordLimit == q.wordLimit
  {
    QuestionView(q.id, q.text, q.kind, q.options, q.wordLimit)
  }

  /** `getQuestionsForTaking()`: one view per question, in the same order,
      carrying exactly id, text, type, options and word limit. */
  function GetQuestionsForTaking(quiz: Quiz): (r: seq<QuestionView>)
    ensures |r| == |quiz.questions|
    ensures forall i :: 0 <= i < |r| ==>
              var q := quiz.questions[i];
              r[i].id == q.id && r[i].text == q.text && r[i].kind == q.kind
              && r[i].options == q.options && r[i].wordLimit == q.wordLimit
  {
    seq(|quiz.questions|, i requires 0 <= i < |quiz.questions| => View(quiz.questions[i]))
  }

  /** Two questions that differ at most in their correct answers and their
      quiz id. */
  ghost predicate SameButAnswers(q1: Question, q2: Question)
  {
    q1.(correctAnswers := q2.correctAnswers, quizId := q2.quizId) == q2
  }

  /** The view leaks nothing of the correct answers: quizzes whose questions
      differ only in their correct answers look the same to a quiz-taker. */
  lemma ViewHidesAnswers(a: Quiz, b: Quiz)
    requires |a.questions| == |b.questions|
    requires forall i :: 0 <= i < |a.questions| ==> SameButAnswers(a.questions[i], b.questions[i])
    ensures GetQuestionsForTaking(a) == GetQuestionsForTaking(b)
  {
    var va, vb := GetQuestionsForTaking(a), GetQuestionsForTaking(b);
    forall i | 0 <= i < |va|
      ensures va[i] == vb[i]
    {
      var qa, qb := a.questions[i], b.questions[i];
      assert qa.(correctAnswers := qb.correctAnswers, quizId := qb.quizId) == qb;
      assert qa.id == qb.id && qa.text == qb.text && qa.kind == qb.kind;
      assert qa.options == qb.options && qa.wordLimit == qb.wordLimit;
    }
  }

  /** After an append, looking up an id finds the same question as before
      if one had it, and the new question otherwise. */
  lemma {:induction false} GetQuestionAfterAdd(quiz: Quiz, q: Question, questionId: nat)
    ensures GetQuestion(AddQuestion(quiz, q), questionId) ==
              if GetQuestion(quiz, questionId).Some? then GetQuestion(quiz, questionId)
              else if q.id == questionId then Some(q)
              else None
  {
    IndexAfterAppend(quiz.questions, q, questionId);
  }

  lemma {:induction false} IndexAfterAppend(questions: seq<Question>, q: Question, questionId: nat)
    ensures IndexOfQuestion(questions + [q], questionId) ==
              if IndexOfQuestion(questions, questionId).Some? then IndexOfQuestion(questions, questionId)
              else if q.id == questionId then Some(|questions|)
              else None
  {
    if questions == [] {
      assert questions + [q] == [q];
    } else {
      assert (questions + [q])[1..] == questions[1..] + [q];
      IndexAfterAppend(questions[1..], q, questionId);
    }
  }
}
