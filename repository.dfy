/** The in-memory store: quizzes by id, kept in insertion order, and the two
    id counters (src/models/DataStore.js). */
module Repository {
  import opened Outcomes
  import opened Questions
  import opened Quizzes

  /** The listing entry of one quiz (the creation timestamp is not modelled). */
  datatype QuizSummary = QuizSummary(id: nat, title: string, questionCount: nat)

  function Summary(quiz: Quiz): (r: QuizSummary)
    ensures r.id == quiz.id && r.title == quiz.title && r.questionCount == |quiz.questions|
  {
    QuizSummary(quiz.id, quiz.title, |quiz.questions|)
  }

  /** The summaries of the quizzes stored under `ids`, in that order. */
  function Summaries(quizzes: map<nat, Quiz>, ids: seq<nat>): (r: seq<QuizSummary>)
    requires forall i :: 0 <= i < |ids| ==> ids[i] in quizzes
    ensures |r| == |ids|
    ensures forall i :: 0 <= i < |ids| ==>
              r[i].id == quizzes[ids[i]].id
              && r[i].title == quizzes[ids[i]].title
              && r[i].questionCount == |quizzes[ids[i]].questions|
  {
    if ids == [] then []
    else Summaries(quizzes, ids[..|ids| - 1]) + [Summary(quizzes[ids[|ids| - 1]])]
  }

  class DataStore {
    /** The `Map` of quizzes, by id. */
    var quizzes: map<nat, Quiz>
    /** The keys of `quizzes` in the order a JavaScript `Map` iterates them:
        first insertion order. */
    var order: seq<nat>
    var currentQuizId: nat
    var currentQuestionId: nat

    ghost predicate Valid()
      reads this
    {
      && (forall k :: k in quizzes <==> k in order)
      && (forall i, j :: 0 <= i < j < |order| ==> order[i] != order[j])
      && (forall k :: k in quizzes ==> quizzes[k].id == k)
      && currentQuizId >= 1
      && currentQuestionId >= 1
    }

    /** A fresh store: no quizzes, both counters at 1. */
    constructor ()
      ensures Valid()
      ensures quizzes == map[] && order == []
      ensures currentQuizId == 1 && currentQuestionId == 1
    {
      quizzes := map[];
      order := [];
      currentQuizId := 1;
      currentQuestionId := 1;
    }

    /** `createQuiz(quiz)`: stores the quiz under its own id and returns it.
        An existing entry with that id is overwritten and keeps its place in
        the iteration order; a new id goes last. */
    method CreateQuiz(quiz: Quiz) returns (r: Quiz)
      requires Valid()
      modifies this
      ensures Valid()
      ensures r == quiz
      ensures quizzes == old(quizzes)[quiz.id := quiz]
      ensures order == if quiz.id in old(quizzes) then old(order) else old(order) + [quiz.id]
      ensures currentQuizId == old(currentQuizId) && currentQuestionId == old(currentQuestionId)
    {
      if quiz.id !in quizzes {
        order := order + [quiz.id];
      }
      quizzes := quizzes[quiz.id := quiz];
      r := quiz;
    }

    /** `getQuiz(quizId)`. */
    function GetQuiz(quizId: nat): (r: Option<Quiz>)
      reads this
      requires Valid()
      ensures r.Some? <==> quizId in quizzes
      ensures r.Some? ==> r.value == quizzes[quizId] && r.value.id == quizId
    {
      if quizId in quizzes then Some(quizzes[quizId]) else None
    }

    /** `getAllQuizzes()`: one summary per stored quiz, in insertion order. */
    function GetAllQuizzes(): (r: seq<QuizSummary>)
      reads this
      requires Valid()
      ensures |r| == |order| == |quizzes|
      ensures forall i :: 0 <= i < |r| ==>
                order[i] in quizzes && r[i] == Summary(quizzes[order[i]])
    {
      DistinctKeysCount(quizzes, order);
      Summaries(quizzes, order)
    }

    /** `getNextQuizId()`: hands out the counter and post-increments it. */
    method GetNextQuizId() returns (id: nat)
      requires Valid()
      modifies this
      ensures Valid()
      ensures id == old(currentQuizId) && currentQuizId == id + 1
      ensures currentQuestionId == old(currentQuestionId)
      ensures quizzes == old(quizzes) && order == old(order)
    {
      id := currentQuizId;
      currentQuizId := currentQuizId + 1;
    }

    /** `getNextQuestionId()`: the same on the question counter, which is
        independent of the quiz counter and global across quizzes. */
    method GetNextQuestionId() returns (id: nat)
      requires Valid()
      modifies this
      ensures Valid()
      ensures id == old(currentQuestionId) && currentQuestionId == id + 1
      ensures currentQuizId == old(currentQuizId)
      ensures quizzes == old(quizzes) && order == old(order)
    {
      id := currentQuestionId;
      currentQuestionId := currentQuestionId + 1;
    }

    /** `addQuestionToQuiz(quizId, question)`: appends to that quiz alone,
        or fails with "Quiz not found" and changes nothing. */
    method AddQuestionToQuiz(quizId: nat, q: Question) returns (r: Result<Question>)
      requires Valid()
      modifies this
      ensures Valid()
      ensures r.Err? <==> quizId !in old(quizzes)
      ensures r.Err? ==> r.error == QuizNotFound && quizzes == old(quizzes)
      ensures r.Ok? ==> r.value == q && quizzes == old(quizzes)[quizId := AddQuestion(old(quizzes)[quizId], q)]
      ensures order == old(order)
      ensures currentQuizId == old(currentQuizId) && currentQuestionId == old(currentQuestionId)
    {
      if quizId !in quizzes {
        return Err(QuizNotFound);
      }
      quizzes := quizzes[quizId := AddQuestion(quizzes[quizId], q)];
      r := Ok(q);
    }

    /** `getQuestionsForQuiz(quizId)`: the quiz-taker's view, or "Quiz not found". */
    function GetQuestionsForQuiz(quizId: nat): (r: Result<seq<QuestionView>>)
      reads this
      ensures r.Err? <==> quizId !in quizzes
      ensures r.Err? ==> r.error == QuizNotFound
      ensures r.Ok? ==> r.value == GetQuestionsForTaking(quizzes[quizId])
    {
      if quizId in quizzes then Ok(GetQuestionsForTaking(quizzes[quizId])) else Err(QuizNotFound)
    }

    /** `getQuizWithQuestions(quizId)`: the quiz itself, or "Quiz not found". */
    function GetQuizWithQuestions(quizId: nat): (r: Result<Quiz>)
      reads this
      ensures r.Err? <==> quizId !in quizzes
      ensures r.Err? ==> r.error == QuizNotFound
      ensures r.Ok? ==> r.value == quizzes[quizId]
    {
      if quizId in quizzes then Ok(quizzes[quizId]) else Err(QuizNotFound)
    }

    /** `reset()`: back to the state of a fresh store. */
    method Reset()
      modifies this
      ensures Valid()
      ensures quizzes == map[] && order == []
      ensures currentQuizId == 1 && currentQuestionId == 1
    {
      quizzes := map[];
      order := [];
      currentQuizId := 1;
      currentQuestionId := 1;
    }
  }

  /** A duplicate-free list of exactly the keys of a map is as long as the map. */
  lemma {:induction false} DistinctKeysCount(m: map<nat, Quiz>, ks: seq<nat>)
    requires forall k :: k in m <==> k in ks
    requires forall i, j :: 0 <= i < j < |ks| ==> ks[i] != ks[j]
    ensures |m| == |ks|
  {
    if ks == [] {
      assert m.Keys == {};
    } else {
      var last := ks[|ks| - 1];
      var rest := ks[..|ks| - 1];
      var m' := map k | k in m && k != last :: m[k];
      assert m'.Keys == m.Keys - {last};
      forall k ensures k in m' <==> k in rest {
        if k in ks && k != last {
          var i :| 0 <= i < |ks| && ks[i] == k;
          assert i < |ks| - 1;
          assert rest[i] == k;
        }
      }
      DistinctKeysCount(m', rest);
    }
  }
}
