/**
 * The quiz document and the submission record shared by the editor, the
 * taker and the dashboard. Ids are opaque integers; scores are integers
 * that may be negative, zero or positive.
 */
module QuizTypes {

  /** A `Single` question admits at most one selected option, a `Multi` question any subset. */
  datatype QuestionType = Single | Multi

  datatype Option = Option(id: int, questionId: int, text: string, score: int)

  datatype Question = Question(
    id: int,
    quizId: int,
    text: string,
    kind: QuestionType,
    position: int,
    options: seq<Option>)

  datatype Quiz = Quiz(
    id: int,
    title: string,
    description: string,
    createdAt: string,
    questions: seq<Question>)

  /** One selected option of one question. */
  datatype Answer = Answer(questionId: int, optionId: int)

  datatype Submission = Submission(
    id: int,
    quizId: int,
    totalScore: int,
    submittedAt: string,
    answers: seq<Answer>)

  /** The result of a search that may find nothing, and a value that may be absent (null). */
  datatype Lookup<+T> = Missing | Found(value: T)

  /** Concatenation of lists is associative. */
  lemma ConcatAssoc<T>(x: seq<T>, y: seq<T>, z: seq<T>)
    ensures (x + y) + z == x + (y + z)
  {
  }
}
