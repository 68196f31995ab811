# Quiz pipeline: question bank and quiz orchestration

This project models the in-memory logic of two cooperating Spring services:

- The **question service** (`QuestionService`) owns the question bank. It
  adds questions and accepts a question only when its title is non-empty. It
  lists all questions or those of one category, and passes on a random sample
  of question ids. It turns a list of ids into redacted `QuestionWrapper`s
  (id, title, four options, no right answer). It grades a batch of
  `Response`s by counting exact matches with each question's right answer,
  and stops at the first response whose id is not positive.
- The **quiz service** (`QuizService`) owns the quizzes. A quiz is a title and
  an ordered list of question ids. It creates a quiz from the ids the question
  service samples, fetches a quiz's redacted questions through the question
  service, and forwards a batch of responses to the question service's grader.

Modules:

- `Http` (`http.dfy`): the status and body of a `ResponseEntity`, or the
  `NoSuchElementException` that `Optional.get()` throws (`Outcome`).
- `Model` (`model.dfy`): `Question`, `QuestionWrapper`, `Response`, `Quiz`,
  and `Wrap`, the projection from a question to its wrapper.
- `QuestionBank` (`question_bank.dfy`): the question table is a `seq<Question>`
  in insertion order, plus the next id the table assigns. `Find` and
  `ByCategory` stand for the table's lookups. `FetchWrapped` and `Grade`
  specify the two looping operations. The class `QuestionService` holds the
  table. `AddQuestion` changes it. `GetQuestionsFromId` and `GetScore` are
  loops proved equal to `FetchWrapped` and `Grade`.
- `QuizOrchestration` (`quiz_orchestration.dfy`): the class `QuizService`
  holds the quiz table as a `map<int, Quiz>` and a `QuestionClient`. The
  client is a datatype of three functions that stand for the remote
  question-service endpoints, so every property holds for any remote
  behaviour. `BackedBy` ties a client to a question bank, so that properties
  of the whole pipeline can be stated. It assumes the client hands back
  non-2xx replies and the question service's exception unchanged.

Decisions:

- **Missing ids.** `Optional.get()` on an id that resolves to nothing
  (`QuestionService.java` lines 66 and 82, `QuizService.java` line 42) is
  modelled as the outcome `NoSuchElement(id)`, not as a precondition. The
  call ends with that exception, and it names the id. For a batch of ids,
  that is the first unknown id in input order.
- **What the code returns.** An unknown question or quiz id ends the call
  with the exception `Optional.get()` throws. The table's sample of ids is
  passed on unchanged. `createQuiz` answers "Success", not the new quiz's id.
- **Ids assigned on save.** A question or quiz is saved under the id its table
  assigns next. `QuestionService.Valid` keeps the stored question ids
  positive, below the next id and pairwise distinct, and `AddQuestion`
  preserves it.
- **Wrapping.** `Model.Wrap` builds the wrapper for one question, as the
  `QuestionWrapper` constructor call at `QuestionService.java` line 70 does.
  It is a helper of `FetchWrapped`, whose contract states each wrapper's
  fields, and `RightAnswersNeverLeak` states the redaction it performs.

## Model

| member | source | states |
|---|---|---|
| `QuestionBank.Find` | question-service/src/main/java/com/dmaddi/questionservice/service/QuestionService.java:66 | the question found under an id is a stored question with that id; nothing is found exactly when no stored question has that id |
| `QuestionBank.ByCategory` | question-service/src/main/java/com/dmaddi/questionservice/service/QuestionService.java:39 | the category listing, in table order, is no longer than the table (what it holds is stated by `ByCategoryCounts`) |
| `QuestionBank.ByCategoryCounts` | question-service/src/main/java/com/dmaddi/questionservice/service/QuestionService.java:39 | a question is listed exactly when it is stored and its category equals the given one (exact match, no case folding); each such question appears as many times as in the table, and no other question appears |
| `QuestionBank.FindAfterSave` | question-service/src/main/java/com/dmaddi/questionservice/service/QuestionService.java:46-48 | saving a question under an unused id makes it the one found under that id and leaves the lookup of every other id unchanged |
| `QuestionBank.ByCategoryAfterSave` | question-service/src/main/java/com/dmaddi/questionservice/service/QuestionService.java:46-48 | after a save, a category listing is the old listing plus the new question if its category matches, and unchanged otherwise |
| `QuestionBank.Resolve` | question-service/src/main/java/com/dmaddi/questionservice/service/QuestionService.java:65-67 | looking up ids in order succeeds exactly when every id is stored, and then yields one question per id in input order; otherwise it stops at the first unknown id |
| `QuestionBank.ResolveStops` | question-service/src/main/java/com/dmaddi/questionservice/service/QuestionService.java:65-67 | once the lookup loop has hit an unknown id, the later ids do not change the outcome |
| `QuestionBank.FetchWrapped` | question-service/src/main/java/com/dmaddi/questionservice/service/QuestionService.java:58-74 | an empty id list gives 403 with no body; if every id is stored, the result is 200 with exactly one wrapper per id, in input order, holding that id and the stored question's title and four options; otherwise the call throws on the first unknown id |
| `QuestionBank.FindSamePublicView` | question-service/src/main/java/com/dmaddi/questionservice/service/QuestionService.java:66-70 | two banks that differ only in right answers, categories or difficulty levels find the same ids, and their found questions have the same wrappers |
| `QuestionBank.RightAnswersNeverLeak` | question-service/src/main/java/com/dmaddi/questionservice/service/QuestionService.java:69-71 | redaction: `getQuestionsFromId` gives the same outcome on two banks that differ only in right answers (or categories or difficulty levels), so no right answer can reach the result |
| `QuestionBank.CountRight` | question-service/src/main/java/com/dmaddi/questionservice/service/QuestionService.java:83-84 | the number of responses whose text equals their question's right answer is at most the number of responses |
| `QuestionBank.CountRightAppend` | question-service/src/main/java/com/dmaddi/questionservice/service/QuestionService.java:83-84 | appending one response adds one to the count exactly when that response is right |
| `QuestionBank.Grade` | question-service/src/main/java/com/dmaddi/questionservice/service/QuestionService.java:76-88 | a reply always carries a score between 0 and the number of responses; any reply that is not 200 is exactly (0, 400) |
| `QuestionBank.GradeStops` | question-service/src/main/java/com/dmaddi/questionservice/service/QuestionService.java:79-82 | once the grading loop has stopped (400 or an exception), the later responses do not change the outcome |
| `QuestionBank.GradeCountsRightAnswers` | question-service/src/main/java/com/dmaddi/questionservice/service/QuestionService.java:77-87 | the outcome is 200 exactly when every response has a positive, stored id; then the score is the number of responses that exactly match their question's right answer (so an empty batch scores 0) |
| `QuestionBank.GradeRejectsNonPositiveId` | question-service/src/main/java/com/dmaddi/questionservice/service/QuestionService.java:80-81 | fail-fast: if the first ungradable response has an id <= 0, the outcome is (0, 400); right answers before it are discarded and responses after it are not read |
| `QuestionBank.GradeThrowsOnUnknownId` | question-service/src/main/java/com/dmaddi/questionservice/service/QuestionService.java:82 | if the first ungradable response has a positive id that names no question, the call throws on that id |
| `QuestionBank.ScoreOfThreeRightAnswers` | question-service/src/test/java/com/dmaddi/questionservice/controller/QuestionControllerIntegrationTest.java:102-138 | three right answers to questions 7, 13 and 14 give 200 with score 3 |
| `QuestionBank.ScoreWithZeroIdFirst` | question-service/src/test/java/com/dmaddi/questionservice/controller/QuestionControllerIntegrationTest.java:145-182 | the same batch with id 0 in front gives (0, 400) |
| `QuestionBank.QuestionService.GetAllQuestions` | question-service/src/main/java/com/dmaddi/questionservice/service/QuestionService.java:22-24 | 200 with the whole table |
| `QuestionBank.QuestionService.GetQuestionsByCategory` | question-service/src/main/java/com/dmaddi/questionservice/service/QuestionService.java:31-40 | 200 with a list holding exactly the stored questions of that category, each as many times as it is stored; an unknown category gives an empty list, not an error |
| `QuestionBank.QuestionService.AddQuestion` | question-service/src/main/java/com/dmaddi/questionservice/service/QuestionService.java:42-50 | an empty title gives ("failure", 406) and leaves the table unchanged; otherwise the question is appended under a fresh id and ("success", 201) is returned; the new question is found under its id, every other id finds what it found before, and every other category listing is unchanged |
| `QuestionBank.QuestionService.GetQuestionsForQuiz` | question-service/src/main/java/com/dmaddi/questionservice/service/QuestionService.java:52-56 | 200 with the table's sample of ids, unchanged (no promise of size, uniqueness or category) |
| `QuestionBank.QuestionService.GetQuestionsFromId` | question-service/src/main/java/com/dmaddi/questionservice/service/QuestionService.java:58-74 | the two loops (look up, then wrap) compute `FetchWrapped` of the table; the table is not changed |
| `QuestionBank.QuestionService.GetScore` | question-service/src/main/java/com/dmaddi/questionservice/service/QuestionService.java:76-88 | the counting loop with its early return computes `Grade` of the table; the table is not changed |
| `QuizOrchestration.QuizService.CreateQuiz` | quiz-service/src/main/java/com/dmaddi/quizservice/service/QuizService.java:27-37 | exactly one quiz is added, under a fresh id, holding the given title and exactly the ids the remote sample returned, in order; ("Success", 201); every other quiz and its fetched questions are unchanged; fetching the new quiz's questions forwards exactly the sampled ids to the remote fetch |
| `QuizOrchestration.QuizService.GetQuizQuestions` | quiz-service/src/main/java/com/dmaddi/quizservice/service/QuizService.java:39-45 | for a stored quiz: the remote fetch applied to that quiz's stored id list, passed on unchanged; for an unknown quiz id: the call throws |
| `QuizOrchestration.QuizService.CalculateResult` | quiz-service/src/main/java/com/dmaddi/quizservice/service/QuizService.java:47-50 | the remote grader's outcome for the responses, passed on unchanged |
| `QuizOrchestration.ResultIgnoresQuizId` | quiz-service/src/main/java/com/dmaddi/quizservice/service/QuizService.java:47-50 | the quiz id plays no part in the result |
| `QuizOrchestration.QuizQuestionsThroughBank` | quiz-service/src/main/java/com/dmaddi/quizservice/service/QuizService.java:39-45 | through a client backed by a question bank, a quiz whose ids are all stored gives 200 with the wrappers of exactly those questions in the quiz's order; a quiz with an empty sample gives 403, assuming the client returns non-2xx replies unchanged |
| `QuizOrchestration.ResultThroughBank` | quiz-service/src/main/java/com/dmaddi/quizservice/service/QuizService.java:47-50 | through a client backed by a question bank, submitting to any quiz scores the number of right answers with 200 when every response is gradable, and gives (0, 400) when the first ungradable response has an id <= 0, assuming the client returns non-2xx replies unchanged |

## Left out

- Spring wiring, the controllers, and the `ResponseEntity` plumbing are not modelled. Only the status and optional body are kept.
- What Spring sends the client when `NoSuchElementException` escapes a service is not modelled. The model stops at the exception.
- The `catch` in `getAllQuestions` is not modelled, because table exceptions are not modelled. On a table error that branch would answer an empty list with 400.
- The table's random sample query is not modelled. Its SQL is not part of this model. `GetQuestionsForQuiz` takes the sampled ids as a parameter.
- `QuestionClient` is deterministic: the same arguments always give the same answer. The randomness of the real remote sample across calls is therefore not captured.
- Remote failures are not modelled: timeouts, connection errors, and Feign's exception on a non-2xx status. The lemmas about the whole pipeline (`QuizQuestionsThroughBank`, `ResultThroughBank`) assume the client passes 403, 400 and the question service's exception through unchanged. The sample endpoint answers 200 on every input, so `CreateQuiz` always saves a quiz.
- The table's order for `findAll` and `findByCategory` is modelled as insertion order. The source does not fix an order.
- A `save` of a question whose id already names a stored row (an update) is not modelled. Every accepted question gets the next id.
- Java's 32-bit `Integer` is modelled as an unbounded `int`. The score cannot overflow, because it is at most the number of responses.
- A null title or null response string would throw `NullPointerException`. Fields are modelled as non-null strings.
- The commented-out title-case conversion of the category is dead code and is not modelled. Category matching is exact.
- Concurrency between requests is not modelled.
