# Quiz service core, modelled in Dafny

This project models the domain core of a small quiz service. The service lets
authors create quizzes and attach single-choice, multiple-choice and free-text
questions. Quiz-takers see the questions without their answers and submit
answers, and the service grades each submission.

The model covers four source files:

- `src/models/Question.js`: the validation a question passes at construction, and the rule that marks an answer.
- `src/models/Quiz.js`: the ordered question list of a quiz, and the view with the answers removed.
- `src/models/DataStore.js`: the in-memory store of quizzes with its two id counters.
- `src/services/quizService.js`: the use cases on top of the store, including the grading of a whole submission.

The pass mark that the HTTP controller adds to a grading (`passed = percentage >= 60`) is part of the modelled grading result.

Modules, one per source file, plus two helpers:

- `Outcomes` (outcomes.dfy): `Option`, `Result`, and an `Error` enumeration with one constructor per error message the core throws.
- `Text` (text.dfy): the ASCII model of `toLowerCase` and `trim`, with lemmas showing that the grading key ignores case and outer whitespace but keeps internal whitespace.
- `Questions` (questions.dfy): question values, `Validate`, `NewQuestion` and `IsCorrectAnswer`.
- `Quizzes` (quizzes.dfy): the quiz value and its operations.
- `Repository` (repository.dfy): class `DataStore`, with `map<nat, Quiz>`, the insertion order as `seq<nat>`, and two counter fields.
- `QuizServices` (quiz_service.dfy): the grading specification (`Evaluate`, `Score`, `Percentage`, `Passed`) and class `QuizService`.
  - Its `SubmitAnswers` loop is proved equal to `Evaluate`.
  - Its invariant keeps every stored id below its counter and every stored question well-formed.

Quizzes are stored as values, so `Quiz.addQuestion`, which pushes in place, becomes `Quizzes.AddQuestion` returning the new value. `DataStore.AddQuestionToQuiz` writes that value back into the map.

## Model

| member | source | states |
|---|---|---|
| `Text.TrimStart` | src/models/Question.js:58 | the result is the suffix of the input starting at its first non-whitespace character; everything dropped is whitespace |
| `Text.TrimEnd` | src/models/Question.js:58 | the result is the prefix ending at the last non-whitespace character; everything dropped is whitespace |
| `Text.Trim` | src/models/Question.js:58 | the result is a contiguous middle part of the input; everything dropped on either side is whitespace, and the result neither starts nor ends with whitespace |
| `Text.Lower` | src/models/Question.js:58 | `toLowerCase`: same length, every character lowered and nothing else changed |
| `Text.Normalize` | src/models/Question.js:58 | the grading key `toLowerCase().trim()` has no upper-case letter and no whitespace at either end, and it is empty exactly when the input is all whitespace |
| `Text.IsBlank` | src/models/Question.js:16 | the blank-text test (`!text` or `trim().length === 0`) holds exactly when every character is whitespace; the empty string is blank |
| `Text.BlankIffAllSpace` | src/models/Question.js:16 | `trim()` returns the empty string exactly when every character is whitespace |
| `Text.TrimIgnoresPadding` | src/models/Question.js:58 | whitespace added on either side does not change what `trim` returns |
| `Text.NormalizeIgnoresPadding` | src/models/Question.js:58 | the grading key `toLowerCase().trim()` ignores whitespace added around the string |
| `Text.NormalizeIgnoresCase` | src/models/Question.js:58 | the grading key of the upper-cased string equals that of the string |
| `Text.InternalSpaceMatters` | src/models/Question.js:58 | internal whitespace is kept: "new york" and "newyork" have different keys |
| `Questions.ParseType` | src/models/Question.js:20-22 | exactly the three spellings `single-choice`, `multiple-choice`, `text` are accepted, each to its own type |
| `Questions.IsTruthy` | src/models/Question.js:25 | the truthiness test on the word limit: absent and 0 are falsy, every other number is truthy |
| `Questions.OptionIds` | src/models/Question.js:46 | `options.map(opt => opt.id)`: one id per option, in option order |
| `Questions.InvalidAnswerIds` | src/models/Question.js:46-47 | the reported ids are exactly the correct answers that name no option; the list is empty iff every answer names an option |
| `Questions.InvalidAnswerIdsKeepOrder` | src/models/Question.js:47-49 | the filter distributes over concatenation, so the invalid ids are listed in the order they were given |
| `Questions.Validate` | src/models/Question.js:15-52 | succeeds iff the per-type rules hold; otherwise reports the first failing check in source order (blank text, bad type, then word limit over 300 if truthy and no answers for text; fewer than 2 options, no answers, several answers for single-choice, and answers naming no option for choice types) |
| `Questions.NewQuestion` | src/models/Question.js:2-13 | a question is produced iff validation passes, it carries the given fields, and it is well-formed; otherwise the validation error is returned |
| `Questions.ChoiceAnswersAreOptions` | src/models/Question.js:37-50 | every correct answer of a constructed choice question is the id of one of its options, and a single-choice question has exactly one |
| `Questions.AnyMatches` | src/models/Question.js:57-59 | `some` over the correct answers: true iff one of them has the given grading key |
| `Questions.AllIncluded` | src/models/Question.js:68-69 | `every(... includes ...)`: true iff every element of the first list occurs in the second |
| `Questions.IsCorrectAnswer` | src/models/Question.js:54-72 | text: correct iff some correct answer has the submission's key; single-choice: iff the submission is a string among the correct answers; multiple-choice: iff it is an array of equal length with containment both ways; an array for a text question with answers is an error, and for one without answers is wrong |
| `Questions.TextGradeIgnoresCase` | src/models/Question.js:57-59 | text grading gives the same result for a submission and its upper-cased form |
| `Questions.TextGradeIgnoresPadding` | src/models/Question.js:57-59 | text grading gives the same result when whitespace is added around the submission |
| `Questions.TextGradeKeepsInternalSpace` | src/models/Question.js:57-59 | with "newyork" as the answer, "new york" is graded wrong |
| `Questions.SingleChoiceRejectsArrays` | src/models/Question.js:63 | an array never answers a single-choice question |
| `Questions.SingleChoiceExactlyOne` | src/models/Question.js:63 | on a well-formed single-choice question, a string is correct iff it equals the one correct option |
| `Questions.MultipleChoiceOrderIrrelevant` | src/models/Question.js:66-69 | two submissions with the same elements, in any order, get the same grade |
| `Questions.MultipleChoiceNoPartialCredit` | src/models/Question.js:67-69 | a submission missing a correct option, or naming one that is not correct, is wrong |
| `Questions.MultipleChoiceRejectsStrings` | src/models/Question.js:66 | a string never answers a multiple-choice question |
| `Questions.SingleChoiceExample` | tests/quiz.test.js:255-266 | "b" is correct and "a" is wrong for the 2 + 2 question |
| `Questions.MultipleChoiceExample` | tests/quiz.test.js:268-280 | {a, c, d} in any order is correct; the subset {a, c} and the superset with "extra" are wrong |
| `Questions.TextExampleAccepted` | tests/quiz.test.js:359-373 | "PARIS" is correct when the answers are "Paris" and "paris" |
| `Questions.TextExampleRejected` | tests/quiz.test.js:339-357 | "London" is wrong for the same question |
| `Quizzes.NewQuiz` | src/models/Quiz.js:2-7 | a new quiz has the given id and title and no questions |
| `Quizzes.AddQuestion` | src/models/Quiz.js:9-11 | appends: one more question, the new one last, the earlier ones, id and title unchanged |
| `Quizzes.IndexOfQuestion` | src/models/Quiz.js:13-15 | the position of the first question with the id, or none when no question has it |
| `Quizzes.GetQuestion` | src/models/Quiz.js:13-15 | returns the first question with the id, or nothing iff no question has it |
| `Quizzes.GetAllQuestions` | src/models/Quiz.js:17-19 | returns the stored questions, same length and same entries in the same order |
| `Quizzes.GetQuestionsForTaking` | src/models/Quiz.js:21-30 | one view per question, same order, carrying exactly id, text, type, options and word limit |
| `Quizzes.View` | src/models/Quiz.js:23-29 | the per-question projection keeps id, text, type, options and word limit; `ViewHidesAnswers` shows that it does not depend on the correct answers |
| `Quizzes.ViewHidesAnswers` | src/models/Quiz.js:21-30 | quizzes whose questions differ only in correct answers (and quiz id) have identical views, so nothing about the answers leaks |
| `Quizzes.GetQuestionAfterAdd` | src/models/Quiz.js:9-15 | after an append, lookup finds the earlier question if one had the id, else the new one if it has the id |
| `Quizzes.IndexAfterAppend` | src/models/Quiz.js:13-15 | appending keeps the first-match position of an id that was already present |
| `Repository.Summary` | src/models/DataStore.js:21-28 | a summary carries the quiz's id, title and number of questions |
| `Repository.Summaries` | src/models/DataStore.js:21-28 | one summary per listed id, in the listed order |
| `Repository.DistinctKeysCount` | src/models/DataStore.js:21-28 | the duplicate-free insertion order is as long as the map, so the listing has one entry per stored quiz |
| `Repository.DataStore.constructor` | src/models/DataStore.js:5-9 | a fresh store has no quizzes and both counters at 1 |
| `Repository.DataStore.CreateQuiz` | src/models/DataStore.js:12-15 | stores the quiz under its id and returns it; an existing entry is overwritten in place; other keys and both counters are unchanged |
| `Repository.DataStore.GetQuiz` | src/models/DataStore.js:17-19 | the stored quiz, whose id is the key, or nothing iff the key is absent |
| `Repository.DataStore.GetAllQuizzes` | src/models/DataStore.js:21-28 | one summary per stored quiz, in insertion order, with the quiz's question count |
| `Repository.DataStore.GetNextQuizId` | src/models/DataStore.js:30-32 | returns the quiz counter and increments it; the question counter and the quizzes are unchanged |
| `Repository.DataStore.GetNextQuestionId` | src/models/DataStore.js:34-36 | returns the question counter and increments it; the quiz counter and the quizzes are unchanged |
| `Repository.DataStore.AddQuestionToQuiz` | src/models/DataStore.js:39-46 | "Quiz not found" with nothing changed iff the id is absent; otherwise appends to that quiz only |
| `Repository.DataStore.GetQuestionsForQuiz` | src/models/DataStore.js:48-54 | the quiz's safe view, or "Quiz not found" iff the id is absent |
| `Repository.DataStore.GetQuizWithQuestions` | src/models/DataStore.js:56-62 | the stored quiz, or "Quiz not found" iff the id is absent |
| `Repository.DataStore.Reset` | src/models/DataStore.js:65-69 | restores exactly the state of a fresh store |
| `QuizServices.Percentage` | src/services/quizService.js:119 | NaN iff the quiz has no questions; otherwise the integer nearest to 100 * score / total, halves rounded up |
| `QuizServices.Passed` | src/controllers/quizController.js:124 | `percentage >= 60`: a NaN percentage never passes, and a whole percentage passes iff it is at least 60 |
| `QuizServices.PassedIff` | src/controllers/quizController.js:124 | a submission passes iff 200 * score >= 119 * total, i.e. the rounded percentage is at least 60 |
| `QuizServices.PercentageAtMost100` | src/services/quizService.js:119 | while the score does not exceed the total, the percentage is at most 100 |
| `QuizServices.PercentageExamples` | tests/quiz.test.js:320-357 | 3 of 3 gives 100 and passes; 1 of 3 gives 33 and fails; 1 of 8 rounds 12.5 up to 13 |
| `QuizServices.GradeOne` | src/services/quizService.js:92-113 | the entry keeps the submitted question id, and is "Question not found" iff the quiz has no question with that id |
| `QuizServices.GradeAll` | src/services/quizService.js:91-114 | one entry per submission when no grading throws |
| `QuizServices.Score` | src/services/quizService.js:86 | the count of correct entries never exceeds the number of entries |
| `QuizServices.Evaluate` | src/services/quizService.js:86-121 | total is the quiz's question count; one result per submission; the score is the count of results graded correct, at most the number of submissions; percentage and passed follow from score and total; the only failure is an array for a text question |
| `QuizServices.GradeAllPointwise` | src/services/quizService.js:91-114 | grading a submission succeeds iff every entry grades, and entry i is the grade of submission i alone |
| `QuizServices.EvaluateFailsOnArrayForText` | src/services/quizService.js:103 | a submission fails as a whole iff one entry gives an array for a text question that has correct answers |
| `QuizServices.ResultsFollowSubmissions` | src/services/quizService.js:91-113 | entry i has submission i's question id; it is "Question not found" (never correct) iff no question has that id; otherwise it is correct iff the first such question accepts the answer, and it carries the answer and that question's correct answers |
| `QuizServices.ScoreCountsCorrect` | src/services/quizService.js:103-106 | the score is the number of result entries graded correct |
| `QuizServices.ScoreCanExceedTotal` | src/services/quizService.js:86-106 | answering the single question of a quiz twice gives score 2 with total 1 |
| `QuizServices.EmptyQuizGrading` | src/services/quizService.js:87-119 | a quiz without questions grades every submission "Question not found", with score 0, total 0, NaN percentage, not passed |
| `QuizServices.QuizService.constructor` | src/models/DataStore.js:5-9 | the service owns a fresh, empty store with both counters at 1 |
| `QuizServices.QuizService.CreateQuiz` | src/services/quizService.js:6-14 | draws the next quiz id and stores a new, empty quiz with the title under it; the id was unused, so nothing is overwritten; the question counter is unchanged |
| `QuizServices.QuizService.GetAllQuizzes` | src/services/quizService.js:16-22 | the store's listing: one entry per quiz, in insertion order, each entry the quiz's id, title and question count |
| `QuizServices.QuizService.GetQuiz` | src/services/quizService.js:24-39 | "Quiz not found" iff the id is absent; otherwise id, title and question count of the quiz |
| `QuizServices.QuizService.AddQuestion` | src/services/quizService.js:41-65 | "Quiz not found" before any id is drawn; otherwise draws a question id, then constructs; a failed construction appends nothing but the id is used up; a valid question gets a globally unused id and is appended to that quiz only |
| `QuizServices.QuizService.GetQuestionsForTaking` | src/services/quizService.js:67-75 | "Quiz not found" iff the id is absent; otherwise one view per question of the quiz |
| `QuizServices.QuizService.SubmitAnswers` | src/services/quizService.js:77-125 | "Quiz not found" iff the id is absent; otherwise the loop's score, results and percentage equal `Evaluate` of the stored quiz |

## Left out

- HTTP routing, the controller's status-code mapping and the request validation schemas are not part of this model. Their bounds (title 1 to 200 characters, question text at most 1000, word limit 1 to 300 and absent for choice types, answers at most 300 characters) are not enforced by the core.
- Timestamps (`createdAt`) are a clock read and are not modelled.
- `parseInt` of route ids is not modelled. Ids are `nat`.
- The singleton instances of the store and of the service are not modelled. `QuizService` owns one `DataStore`.
- The message prefix "Failed to create quiz:" is not modelled. Errors are `Outcomes.Error` constructors, not strings.
- `Text.Lower`, `Text.TrimStart`, `Text.TrimEnd`: only ASCII is modelled. Letters are 'A'..'Z' and whitespace is space, tab, line feed, vertical tab, form feed and carriage return. JavaScript's Unicode case mapping and its wider whitespace set are not modelled.
- `QuizServices.Percentage`: computed in exact integer arithmetic as `(200 * score + total) / (2 * total)`. The source's `Math.round` on a floating-point quotient could differ where the quotient is not representable exactly.
- `Questions.IsCorrectAnswer`: a text question given an array is modelled as the error `AnswerNotText`, not as a JavaScript `TypeError`. The rest of the submission is not graded, which matches the exception aborting the loop.
- Values the source does not type-check are not modelled: a non-string text, a non-numeric word limit, or a submission answer that is neither a string nor an array of strings. Only the shapes the request schemas admit are modelled.
- Concurrency is not modelled. The store is mutated by one caller at a time.
- `Repository.DataStore.CreateQuiz` accepts any quiz and overwrites an existing entry, as the source does. Freshness of ids is an invariant of `QuizService` only.
