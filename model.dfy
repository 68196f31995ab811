/** The records that cross the services' boundaries. Every field is a
    non-null value: a null title or response string is not modelled. */
module Model {

  /** A row of the question bank, with its right answer. */
  datatype Question = Question(
    id: int,
    questionTitle: string,
    option1: string,
    option2: string,
    option3: string,
    option4: string,
    rightAnswer: string,
    difficultyLevel: string,
    category: string)

  /** The projection of a question that a quiz-taker may see: no right
      answer, no category, no difficulty level. */
  datatype QuestionWrapper = QuestionWrapper(
    id: int,
    questionTitle: string,
    option1: string,
    option2: string,
    option3: string,
    option4: string)

  /** One submitted answer: the question's id and the chosen text. */
  datatype Response = Response(id: int, response: string)

  /** A quiz: its id, its title and the ordered ids of its questions. */
  datatype Quiz = Quiz(id: int, title: string, questionIds: seq<int>)

  /** The wrapper built for a question: id, title and the four options. */
  function Wrap(q: Question): QuestionWrapper
  {
    QuestionWrapper(q.id, q.questionTitle, q.option1, q.option2, q.option3, q.option4)
  }
}
