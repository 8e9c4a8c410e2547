/** A quiz question: its construction-time validation and the rule that marks an answer
    (src/models/Question.js). */
module Questions {
  import opened Outcomes
  import opened Text

  datatype QuestionType = SingleChoice | MultipleChoice | FreeText

  /** One selectable option of a choice question. */
  datatype Choice = Choice(id: string, text: string)

  /** A submitted answer: a single string, or an array of strings for a
      multiple-choice question. */
  datatype Answer = Str(s: string) | Arr(items: seq<string>)

  /** The constructor's arguments other than the two ids. `wordLimit` is
      `None` when absent; the source only tests it for truthiness, so
      `Some(0)` behaves as absent too. */
  datatype QuestionData = QuestionData(
    text: string,
    typeName: string,
    options: seq<Choice>,
    correctAnswers: seq<string>,
    wordLimit: Option<int>)

  /** A constructed question. The creation timestamp is not modelled. */
  datatype Question = Question(
    id: nat,
    quizId: nat,
    text: string,
    kind: QuestionType,
    options: seq<Choice>,
    correctAnswers: seq<string>,
    wordLimit: Option<int>)

  /** The three accepted spellings of the question type. */
  function ParseType(name: string): (r: Option<QuestionType>)
    ensures r == Some(SingleChoice) <==> name == "single-choice"
    ensures r == Some(MultipleChoice) <==> name == "multiple-choice"
    ensures r == Some(FreeText) <==> name == "text"
  {
    if name == "single-choice" then Some(SingleChoice)
    else if name == "multiple-choice" then Some(MultipleChoice)
    else if name == "text" then Some(FreeText)
    else None
  }

  /** JavaScript truthiness of a numeric word limit: `null` and `0` are
      falsy, every other number is truthy. */
  function IsTruthy(limit: Option<int>): (r: bool)
    ensures limit.None? ==> !r
    ensures limit == Some(0) ==> !r
    ensures limit.Some? && limit.value != 0 ==> r
  {
    limit.Some? && limit.value != 0
  }

  /** `options.map(opt => opt.id)`. */
  function OptionIds(options: seq<Choice>): (r: seq<string>)
    ensures |r| == |options|
    ensures forall i :: 0 <= i < |options| ==> r[i] == options[i].id
  {
    seq(|options|, i requires 0 <= i < |options| => options[i].id)
  }

  /** `correctAnswers.filter(id => !optionIds.includes(id))`: the answers
      that name no option, in the order they were given. */
  function InvalidAnswerIds(answers: seq<string>, ids: seq<string>): (r: seq<string>)
    ensures |r| <= |answers|
    ensures forall x :: x in r <==> x in answers && x !in ids
    ensures r == [] <==> forall a :: a in answers ==> a in ids
  {
    if answers == [] then []
    else
      var rest := InvalidAnswerIds(answers[1..], ids);
      assert forall a :: a in answers <==> a == answers[0] || a in answers[1..];
      if answers[0] in ids then rest else [answers[0]] + rest
  }

  /** The filter keeps the given order: it distributes over concatenation. */
  lemma {:induction false} InvalidAnswerIdsKeepOrder(a: seq<string>, b: seq<string>, ids: seq<string>)
    ensures InvalidAnswerIds(a + b, ids) == InvalidAnswerIds(a, ids) + InvalidAnswerIds(b, ids)
  {
    if a == [] {
      assert a + b == b;
    } else {
      assert (a + b)[0] == a[0] && (a + b)[1..] == a[1..] + b;
      InvalidAnswerIdsKeepOrder(a[1..], b, ids);
    }
  }

  /** The rules a question's arguments must meet, stated as one condition
      per question type rather than as the ordered sequence of checks. */
  ghost predicate Acceptable(data: QuestionData)
  {
    && !IsBlank(data.text)
    && ParseType(data.typeName).Some?
    && |data.correctAnswers| > 0
    && (data.typeName == "text" ==> (IsTruthy(data.wordLimit) ==> data.wordLimit.value <= 300))
    && (data.typeName != "text" ==>
          && |data.options| >= 2
          && (data.typeName == "single-choice" ==> |data.correctAnswers| == 1)
          && forall a :: a in data.correctAnswers ==> a in OptionIds(data.options))
  }

  /** The invariant every constructed question keeps for its whole life. */
  ghost predicate WellFormed(q: Question)
  {
    && !IsBlank(q.text)
    && |q.correctAnswers| > 0
    && match q.kind
       case FreeText => IsTruthy(q.wordLimit) ==> q.wordLimit.value <= 300
       case SingleChoice =>
         |q.options| >= 2 && |q.correctAnswers| == 1 && q.correctAnswers[0] in OptionIds(q.options)
       case MultipleChoice =>
         |q.options| >= 2 && forall a :: a in q.correctAnswers ==> a in OptionIds(q.options)
  }

  /** `validate()`: the checks run in a fixed order and the first one that
      fails decides the error. On success the parsed type is returned. */
  function Validate(data: QuestionData): (r: Result<QuestionType>)
    ensures r.Ok? <==> Acceptable(data)
    ensures r.Ok? ==> ParseType(data.typeName) == Some(r.value)
    // the order in which failures are reported
    ensures IsBlank(data.text) ==> r == Err(TextRequired)
    ensures !IsBlank(data.text) && ParseType(data.typeName).None? ==> r == Err(InvalidType)
    ensures !IsBlank(data.text) && data.typeName == "text" ==>
              r == if IsTruthy(data.wordLimit) && data.wordLimit.value > 300 then Err(WordLimitTooLarge)
                   else if data.correctAnswers == [] then Err(TextAnswerRequired)
                   else Ok(FreeText)
    ensures !IsBlank(data.text) && data.typeName in {"single-choice", "multiple-choice"} ==>
              r == if |data.options| < 2 then Err(TooFewOptions)
                   else if data.correctAnswers == [] then Err(CorrectAnswerRequired)
                   else if data.typeName == "single-choice" && |data.correctAnswers| > 1 then Err(TooManyCorrectAnswers)
                   else if InvalidAnswerIds(data.correctAnswers, OptionIds(data.options)) != [] then
                     Err(InvalidCorrectAnswerIds(InvalidAnswerIds(data.correctAnswers, OptionIds(data.options))))
                   else Ok(ParseType(data.typeName).value)
  {
    if IsBlank(data.text) then Err(TextRequired)
    else match ParseType(data.typeName)
      case None => Err(InvalidType)
      case Some(FreeText) =>
        if IsTruthy(data.wordLimit) && data.wordLimit.value > 300 then Err(WordLimitTooLarge)
        else if |data.correctAnswers| == 0 then Err(TextAnswerRequired)
        else Ok(FreeText)
      case Some(kind) =>
        if |data.options| < 2 then Err(TooFewOptions)
        else if |data.correctAnswers| == 0 then Err(CorrectAnswerRequired)
        else if kind == SingleChoice && |data.correctAnswers| > 1 then Err(TooManyCorrectAnswers)
        else
          var invalid := InvalidAnswerIds(data.correctAnswers, OptionIds(data.options));
          if |invalid| > 0 then Err(InvalidCorrectAnswerIds(invalid)) else Ok(kind)
  }

  /** `new Question(id, quizId, ...)`: assigns the fields, then validates;
      a question that fails validation is never produced. */
  function NewQuestion(id: nat, quizId: nat, data: QuestionData): (r: Result<Question>)
    ensures r.Ok? <==> Acceptable(data)
    ensures r.Err? ==> Validate(data) == Err(r.error)
    ensures r.Ok? ==> && WellFormed(r.value)
                      && r.value.id == id && r.value.quizId == quizId
                      && r.value.text == data.text
                      && ParseType(data.typeName) == Some(r.value.kind)
                      && r.value.options == data.options
                      && r.value.correctAnswers == data.correctAnswers
                      && r.value.wordLimit == data.wordLimit
  {
    match Validate(data)
    case Err(e) => Err(e)
    case Ok(kind) => Ok(Question(id, quizId, data.text, kind, data.options, data.correctAnswers, data.wordLimit))
  }

  /** A successfully constructed choice question only names its own options
      as correct, and a single-choice one names exactly one. */
  lemma ChoiceAnswersAreOptions(id: nat, quizId: nat, data: QuestionData)
    requires NewQuestion(id, quizId, data).Ok?
    requires NewQuestion(id, quizId, data).value.kind != FreeText
    ensures forall a :: a in data.correctAnswers ==> exists i :: 0 <= i < |data.options| && data.options[i].id == a
    ensures data.typeName == "single-choice" ==> |data.correctAnswers| == 1
  {
    var ids := OptionIds(data.options);
    forall a | a in data.correctAnswers
      ensures exists i :: 0 <= i < |data.options| && data.options[i].id == a
    {
      var i :| 0 <= i < |ids| && ids[i] == a;
      assert data.options[i].id == a;
    }
  }

  /** `some(correct => correct.toLowerCase().trim() === key)`, with the
      submission already normalised into `key`. */
  function AnyMatches(correctAnswers: seq<string>, key: string): (r: bool)
    ensures r <==> exists c :: c in correctAnswers && Normalize(c) == key
  {
    if correctAnswers == [] then false
    else
      assert forall c :: c in correctAnswers <==> c == correctAnswers[0] || c in correctAnswers[1..];
      Normalize(correctAnswers[0]) == key || AnyMatches(correctAnswers[1..], key)
  }

  /** `xs.every(x => ys.includes(x))`. */
  function AllIncluded(xs: seq<string>, ys: seq<string>): (r: bool)
    ensures r <==> forall x :: x in xs ==> x in ys
  {
    if xs == [] then true
    else
      assert forall x :: x in xs <==> x == xs[0] || x in xs[1..];
      xs[0] in ys && AllIncluded(xs[1..], ys)
  }

  /** `isCorrectAnswer(userAnswer)`. A text question given an array throws
      in the source (arrays have no `toLowerCase`) as soon as there is a
      correct answer to compare against; that is `Err(AnswerNotText)`. */
  function IsCorrectAnswer(q: Question, answer: Answer): (r: Result<bool>)
    ensures r.Err? <==> q.kind == FreeText && answer.Arr? && q.correctAnswers != []
    ensures r.Err? ==> r.error == AnswerNotText
    ensures q.kind == FreeText && answer.Arr? && q.correctAnswers == [] ==> r == Ok(false)
    ensures q.kind == FreeText && answer.Str? ==>
              (r == Ok(true) <==> exists c :: c in q.correctAnswers && Normalize(c) == Normalize(answer.s))
    ensures q.kind == SingleChoice ==> (r == Ok(true) <==> answer.Str? && answer.s in q.correctAnswers)
    ensures q.kind == MultipleChoice ==>
              (r == Ok(true) <==>
                 && answer.Arr?
                 && |answer.items| == |q.correctAnswers|
                 && (forall x :: x in answer.items ==> x in q.correctAnswers)
                 && (forall c :: c in q.correctAnswers ==> c in answer.items))
  {
    match q.kind
    case FreeText =>
      if answer.Arr? then
        if q.correctAnswers == [] then Ok(false) else Err(AnswerNotText)
      else
        Ok(AnyMatches(q.correctAnswers, Normalize(answer.s)))
    case SingleChoice =>
      Ok(answer.Str? && answer.s in q.correctAnswers)
    case MultipleChoice =>
      if !answer.Arr? then Ok(false)
      else
        Ok(&& |answer.items| == |q.correctAnswers|
           && AllIncluded(answer.items, q.correctAnswers)
           && AllIncluded(q.correctAnswers, answer.items))
  }

  /** Text grading ignores the case of the submission. */
  lemma TextGradeIgnoresCase(q: Question, s: string)
    requires q.kind == FreeText
    ensures IsCorrectAnswer(q, Str(Upper(s))) == IsCorrectAnswer(q, Str(s))
  {
    NormalizeIgnoresCase(s);
  }

  /** Text grading ignores whitespace around the submission. */
  lemma TextGradeIgnoresPadding(q: Question, w1: string, s: string, w2: string)
    requires q.kind == FreeText
    requires AllSpace(w1) && AllSpace(w2)
    ensures IsCorrectAnswer(q, Str(w1 + s + w2)) == IsCorrectAnswer(q, Str(s))
  {
    NormalizeIgnoresPadding(w1, s, w2);
  }

  /** Text grading keeps internal whitespace: with "newyork" as the only
      correct answer, "new york" is wrong. */
  lemma TextGradeKeepsInternalSpace(q: Question)
    requires q.kind == FreeText && q.correctAnswers == ["newyork"]
    ensures IsCorrectAnswer(q, Str("new york")) == Ok(false)
  {
    InternalSpaceMatters();
    var key := Normalize("new york");
    assert AnyMatches(q.correctAnswers, key) == (Normalize("newyork") == key || AnyMatches([], key));
  }

  /** A single-choice question is never answered correctly by an array. */
  lemma SingleChoiceRejectsArrays(q: Question, items: seq<string>)
    requires q.kind == SingleChoice
    ensures IsCorrectAnswer(q, Arr(items)) == Ok(false)
  {
  }

  /** For a well-formed single-choice question, the one correct option is
      the only accepted answer. */
  lemma SingleChoiceExactlyOne(q: Question, s: string)
    requires WellFormed(q) && q.kind == SingleChoice
    ensures IsCorrectAnswer(q, Str(s)) == Ok(s == q.correctAnswers[0])
  {
    assert q.correctAnswers == [q.correctAnswers[0]];
  }

  /** Multiple-choice grading does not depend on the order (or the
      arrangement) of the submitted ids. */
  lemma MultipleChoiceOrderIrrelevant(q: Question, xs: seq<string>, ys: seq<string>)
    requires q.kind == MultipleChoice
    requires multiset(xs) == multiset(ys)
    ensures IsCorrectAnswer(q, Arr(xs)) == IsCorrectAnswer(q, Arr(ys))
  {
    assert |xs| == |multiset(xs)| == |multiset(ys)| == |ys|;
    assert forall x :: x in xs <==> x in multiset(xs);
    assert forall y :: y in ys <==> y in multiset(ys);
  }

  /** A submission that leaves out a correct option is wrong (no partial
      credit), and so is one that adds an option that is not correct. */
  lemma MultipleChoiceNoPartialCredit(q: Question, xs: seq<string>)
    requires q.kind == MultipleChoice
    requires (exists c :: c in q.correctAnswers && c !in xs) || (exists x :: x in xs && x !in q.correctAnswers)
    ensures IsCorrectAnswer(q, Arr(xs)) == Ok(false)
  {
  }

  /** A multiple-choice question is never answered correctly by a string. */
  lemma MultipleChoiceRejectsStrings(q: Question, s: string)
    requires q.kind == MultipleChoice
    ensures IsCorrectAnswer(q, Str(s)) == Ok(false)
  {
  }

  /** The quiz-taking examples of the test suite: "b" answers the
      single-choice question, "a" does not. */
  lemma SingleChoiceExample()
    ensures var q := Question(1, 1, "What is 2 + 2?", SingleChoice,
                              [Choice("a", "3"), Choice("b", "4"), Choice("c", "5")], ["b"], None);
            IsCorrectAnswer(q, Str("b")) == Ok(true) && IsCorrectAnswer(q, Str("a")) == Ok(false)
  {
  }

  /** {a, c, d} in any order answers the multiple-choice question; a subset
      or a superset does not. */
  lemma MultipleChoiceExample()
    ensures var q := Question(2, 1, "Which are fruits?", MultipleChoice,
                              [Choice("a", "Apple"), Choice("b", "Car"), Choice("c", "Orange"), Choice("d", "Banana")],
                              ["a", "c", "d"], None);
            && IsCorrectAnswer(q, Arr(["a", "c", "d"])) == Ok(true)
            && IsCorrectAnswer(q, Arr(["d", "a", "c"])) == Ok(true)
            && IsCorrectAnswer(q, Arr(["a", "c"])) == Ok(false)
            && IsCorrectAnswer(q, Arr(["a", "c", "d", "extra"])) == Ok(false)
  {
    assert "d" !in ["a", "c"];
  }

  lemma LowerLiteral(s: string, t: string)
    requires |s| == |t| && forall i :: 0 <= i < |s| ==> LowerChar(s[i]) == t[i]
    ensures Lower(s) == t
  {
  }

  lemma NormalizedParis()
    ensures Normalize("paris") == "paris" && Normalize("Paris") == "paris" && Normalize("PARIS") == "paris"
  {
    NormalizeFixed("paris");
    LowerLiteral("Paris", "paris");
    LowerLiteral("PARIS", "paris");
  }

  lemma NormalizedLondon()
    ensures Normalize("London") == "london"
  {
    LowerLiteral("London", "london");
    NormalizeFixed("london");
  }

  /** "PARIS" answers a text question whose answers are "Paris" and "paris". */
  lemma TextExampleAccepted(q: Question)
    requires q.kind == FreeText && q.correctAnswers == ["Paris", "paris"]
    ensures IsCorrectAnswer(q, Str("PARIS")) == Ok(true)
  {
    NormalizedParis();
  }

  /** "London" does not. */
  lemma TextExampleRejected(q: Question)
    requires q.kind == FreeText && q.correctAnswers == ["Paris", "paris"]
    ensures IsCorrectAnswer(q, Str("London")) == Ok(false)
  {
    NormalizedParis();
    NormalizedLondon();
    var key := Normalize("London");
    assert AnyMatches(q.correctAnswers, key)
           == (Normalize("Paris") == key || Normalize("paris") == key || AnyMatches([], key));
  }
}
