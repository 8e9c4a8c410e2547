/** Failure values shared by the quiz model.

    The service signals every failure by throwing an `Error` whose message the
    HTTP layer later compares as a string; here each message is one constructor
    of `Error`, and a fallible operation returns a `Result`. */
module Outcomes {

  datatype Option<+T> = None | Some(value: T)

  /** One constructor per error message thrown by the core. */
  datatype Error =
    | TextRequired                          // "Question text is required"
    | InvalidType                           // "Invalid question type. ..."
    | WordLimitTooLarge                     // "Word limit for text questions cannot exceed 300 ..."
    | TextAnswerRequired                    // "Text questions must have at least one correct answer"
    | TooFewOptions                         // "Choice questions must have at least 2 options"
    | CorrectAnswerRequired                 // "Questions must have at least one correct answer"
    | TooManyCorrectAnswers                 // "Single-choice questions can only have one correct answer"
    | InvalidCorrectAnswerIds(ids: seq<string>)  // "Invalid correct answer IDs: <ids joined by ', '>"
    | QuizNotFound                          // "Quiz not found"
    | AnswerNotText                         // the TypeError of calling toLowerCase on an array

  datatype Result<+T> = Ok(value: T) | Err(error: Error)
}
