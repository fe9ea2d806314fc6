/**
 The shared quiz data: a generated question and the state a quiz session exposes.
 */
module QuizTypes {

  /** One multiple-choice question. The number of options is not fixed, and
      `correctAnswer` is intended as a 0-based position into `options`. */
  datatype QuizQuestion = QuizQuestion(question: string, options: seq<string>, correctAnswer: int)

  /** The answer key points at one of the question's own options. */
  predicate WellFormed(q: QuizQuestion)
  {
    0 <= q.correctAnswer < |q.options|
  }

  /** What a quiz session exposes: the questions, the position of the one being
      asked, the points so far and whether the results screen is shown. */
  datatype QuizState = QuizState(questions: seq<QuizQuestion>, currentQuestion: int, score: int, showResults: bool)

  /** A consistent state: the position names an existing question whenever
      there is one, and the score is a count of questions. */
  predicate Consistent(s: QuizState)
  {
    && 0 <= s.currentQuestion
    && (s.questions != [] ==> s.currentQuestion < |s.questions|)
    && 0 <= s.score <= |s.questions|
  }
}
