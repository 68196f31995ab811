/** The quiz service: it owns the quizzes (a title and an ordered list of
    question ids each) and delegates every question operation to the
    question service through a remote client. */
module QuizOrchestration {
  import opened Http
  import opened Model
  import QuestionBank

  /** The remote question-service client (the Feign interface
      `QuizInterface`): one function per endpoint the quiz service calls.
      The quiz service cannot look inside them. */
  datatype QuestionClient = QuestionClient(
    // the body of `getQuestionsForQuiz(category, numQuestions)`: the sampled ids
    getQuestionsForQuiz: (string, int) -> seq<int>,
    getQuestionsFromId: seq<int> -> Outcome<seq<QuestionWrapper>>,
    getScore: seq<Response> -> Outcome<int>)

  class QuizService {
    const client: QuestionClient
    /** The quiz table, by id. */
    var quizzes: map<int, Quiz>
    /** The id the table assigns to the next saved quiz. */
    var nextId: int

    /** Every quiz is filed under its own id, below the next id to assign. */
    ghost predicate Valid()
      reads this
    {
      1 <= nextId && forall k :: k in quizzes ==> 1 <= k < nextId && quizzes[k].id == k
    }

    constructor (client: QuestionClient)
      ensures Valid() && this.client == client && quizzes == map[] && nextId == 1
    {
      this.client := client;
      quizzes := map[];
      nextId := 1;
    }

    /** `getQuizQuestions`: the remote fetch applied to the stored quiz's
        question ids, passed back as it comes; an unknown quiz id makes
        `Optional.get()` throw. */
    function GetQuizQuestions(id: int): (r: Outcome<seq<QuestionWrapper>>)
      reads this
      ensures id in quizzes ==> r == client.getQuestionsFromId(quizzes[id].questionIds)
      ensures id !in quizzes ==> r == NoSuchElement(id)
    {
      if id in quizzes then client.getQuestionsFromId(quizzes[id].questionIds)
      else NoSuchElement(id)
    }

    /** `calculateResult`: the remote grader's answer for the responses;
        the quiz id takes no part in it. */
    function CalculateResult(id: int, responses: seq<Response>): (r: Outcome<int>)
      ensures r == client.getScore(responses)
    {
      client.getScore(responses)
    }

    /** `createQuiz`: sample ids remotely, then save one new quiz holding
        exactly those ids, in order, and the title; ("Success", 201).
        Quizzes already stored are unchanged, and fetching the new quiz's
        questions forwards exactly the sampled ids. */
    method CreateQuiz(category: string, numQ: int, title: string) returns (r: Outcome<string>, ghost quizId: int)
      requires Valid()
      modifies this
      ensures Valid()
      ensures r == Reply(Created, Some("Success"))
      ensures quizId == old(nextId) && quizId !in old(quizzes) && nextId == old(nextId) + 1
      ensures quizzes == old(quizzes)[quizId := Quiz(quizId, title, client.getQuestionsForQuiz(category, numQ))]
      ensures GetQuizQuestions(quizId) == client.getQuestionsFromId(client.getQuestionsForQuiz(category, numQ))
      ensures forall k :: k != quizId ==> GetQuizQuestions(k) == old(GetQuizQuestions(k))
    {
      var questions := client.getQuestionsForQuiz(category, numQ);
      var quiz := Quiz(nextId, title, questions);
      quizId := nextId;
      quizzes := quizzes[nextId := quiz];
      nextId := nextId + 1;
      r := Reply(Created, Some("Success"));
    }
  }

  /** The quiz id plays no part in grading. */
  lemma ResultIgnoresQuizId(svc: QuizService, id1: int, id2: int, rs: seq<Response>)
    ensures svc.CalculateResult(id1, rs) == svc.CalculateResult(id2, rs)
  {
  }

  // -----------------------------------------------------------------------
  // The quiz service in front of a question service
  // -----------------------------------------------------------------------

  /** The client answers as the question service does over `store`: its
      fetch is `getQuestionsFromId` and its grader is `getScore`. This
      assumes the client hands back every reply unchanged, non-2xx
      replies and the question service's exception included; a Feign
      client would instead throw its own exception on those. */
  ghost predicate BackedBy(client: QuestionClient, store: seq<Question>)
  {
    && (forall ids :: client.getQuestionsFromId(ids) == QuestionBank.FetchWrapped(store, ids))
    && (forall rs :: client.getScore(rs) == QuestionBank.Grade(store, rs))
  }

  /** A stored quiz whose ids all name questions yields, through a client
      backed by that bank, 200 with the wrappers of exactly those
      questions in the quiz's order; a quiz whose sample was empty yields
      403 with no body, assuming the client returns non-2xx replies
      unchanged. */
  lemma QuizQuestionsThroughBank(svc: QuizService, store: seq<Question>, k: int)
    requires BackedBy(svc.client, store)
    requires k in svc.quizzes && QuestionBank.AllStored(store, svc.quizzes[k].questionIds)
    ensures var ids, r := svc.quizzes[k].questionIds, svc.GetQuizQuestions(k);
      && (ids == [] ==> r == Reply(Forbidden, None))
      && (ids != [] ==>
           && r.Reply? && r.status == Ok && r.body.Some? && |r.body.value| == |ids|
           && forall i :: 0 <= i < |ids| ==> r.body.value[i] == Wrap(QuestionBank.Find(store, ids[i]).value))
  {
    var ids := svc.quizzes[k].questionIds;
    assert svc.client.getQuestionsFromId(ids) == QuestionBank.FetchWrapped(store, ids);
  }

  /** Submitting to any quiz through a client backed by the bank gives 200
      with the number of right answers when every response is gradable,
      and (0, 400) when the first ungradable response has an id <= 0,
      assuming the client returns non-2xx replies unchanged. */
  lemma ResultThroughBank(svc: QuizService, store: seq<Question>, id: int, rs: seq<Response>)
    requires BackedBy(svc.client, store)
    ensures (forall i :: 0 <= i < |rs| ==> QuestionBank.Gradable(store, rs[i])) ==>
      svc.CalculateResult(id, rs) == Reply(Ok, Some(QuestionBank.CountRight(store, rs)))
    ensures forall k :: 0 <= k < |rs| && rs[k].id <= 0
                        && (forall i :: 0 <= i < k ==> QuestionBank.Gradable(store, rs[i])) ==>
      svc.CalculateResult(id, rs) == Reply(BadRequest, Some(0))
  {
    assert svc.client.getScore(rs) == QuestionBank.Grade(store, rs);
    QuestionBank.GradeCountsRightAnswers(store, rs);
    forall k | 0 <= k < |rs| && rs[k].id <= 0 && (forall i :: 0 <= i < k ==> QuestionBank.Gradable(store, rs[i]))
      ensures svc.CalculateResult(id, rs) == Reply(BadRequest, Some(0))
    {
      QuestionBank.GradeRejectsNonPositiveId(store, rs, k);
    }
  }
}
