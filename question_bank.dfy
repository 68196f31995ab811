/** The question service: the question bank, its lookups, the redacted
    fetch of questions by id and the grading of a batch of responses.
    The bank's table is a sequence of questions in insertion order. */
module QuestionBank {
  import opened Http
  import opened Model

  // ---------------------------------------------------------------------
  // Store lookups (the DAO's queries)
  // ---------------------------------------------------------------------

  /** `findById`: the stored question that carries `id`, if any. */
  function Find(store: seq<Question>, id: int): (r: Option<Question>)
    ensures r.Some? ==> r.value in store && r.value.id == id
    ensures r.None? <==> forall i :: 0 <= i < |store| ==> store[i].id != id
  {
    if store == [] then None
    else if store[0].id == id then Some(store[0])
    else
      assert forall i :: 1 <= i < |store| ==> store[i] == store[1..][i - 1];
      Find(store[1..], id)
  }

  /** `findByCategory`: the stored questions whose category is exactly
      `category` (no case folding), in store order. */
  function ByCategory(store: seq<Question>, category: string): (r: seq<Question>)
    ensures |r| <= |store|
  {
    if store == [] then []
    else
      (if store[0].category == category then [store[0]] else []) + ByCategory(store[1..], category)
  }

  /** The listing holds each question of the category exactly as many
      times as the table does, and no other question. */
  lemma {:induction false} ByCategoryCounts(store: seq<Question>, category: string)
    ensures forall q :: multiset(ByCategory(store, category))[q]
                     == if q.category == category then multiset(store)[q] else 0
    ensures forall q :: q in ByCategory(store, category) <==> q in store && q.category == category
  {
    if store != [] {
      assert store == [store[0]] + store[1..];
      ByCategoryCounts(store[1..], category);
    }
  }

  /** Saving a question under an id no stored question has makes it the
      one found under that id, and leaves every other lookup as it was. */
  lemma {:induction false} FindAfterSave(store: seq<Question>, q: Question)
    requires forall i :: 0 <= i < |store| ==> store[i].id != q.id
    ensures Find(store + [q], q.id) == Some(q)
    ensures forall id :: id != q.id ==> Find(store + [q], id) == Find(store, id)
  {
    if store != [] {
      assert (store + [q])[1..] == store[1..] + [q];
      FindAfterSave(store[1..], q);
    }
  }

  /** Saving a question extends each category listing by that question
      when its category matches, and by nothing otherwise. */
  lemma {:induction false} ByCategoryAfterSave(store: seq<Question>, q: Question, category: string)
    ensures ByCategory(store + [q], category)
         == ByCategory(store, category) + (if q.category == category then [q] else [])
  {
    var added := if q.category == category then [q] else [];
    if store == [] {
      assert store + [q] == [q];
    } else {
      var head := if store[0].category == category then [store[0]] else [];
      var rest := store[1..];
      assert (store + [q])[0] == store[0] && (store + [q])[1..] == rest + [q];
      ByCategoryAfterSave(rest, q, category);
      assert ByCategory(store + [q], category) == head + ByCategory(rest + [q], category);
      assert ByCategory(store, category) == head + ByCategory(rest, category);
      assert head + (ByCategory(rest, category) + added) == (head + ByCategory(rest, category)) + added;
    }
  }

  // ---------------------------------------------------------------------
  // getQuestionsFromId: resolve every id, then wrap
  // ---------------------------------------------------------------------

  /** `k` is the position of the first id in `ids` that names no stored question. */
  ghost predicate FirstMissing(store: seq<Question>, ids: seq<int>, k: int)
  {
    && 0 <= k < |ids|
    && Find(store, ids[k]).None?
    && forall i :: 0 <= i < k ==> Find(store, ids[i]).Some?
  }

  /** Every id in `ids` names a stored question. */
  ghost predicate AllStored(store: seq<Question>, ids: seq<int>)
  {
    forall i :: 0 <= i < |ids| ==> Find(store, ids[i]).Some?
  }

  /** What the lookup loop ends with: the questions for all ids, or the
      first id that does not resolve. */
  datatype Resolution = Resolved(found: seq<Question>) | Unresolved(id: int)

  /** Looking the ids up one after the other, stopping at the first miss. */
  function Resolve(store: seq<Question>, ids: seq<int>): (r: Resolution)
    ensures r.Resolved? <==> AllStored(store, ids)
    ensures r.Resolved? ==> |r.found| == |ids|
    ensures r.Resolved? ==> forall i :: 0 <= i < |ids| ==> Find(store, ids[i]) == Some(r.found[i])
    ensures r.Unresolved? ==> exists k :: FirstMissing(store, ids, k) && r.id == ids[k]
  {
    if ids == [] then Resolved([])
    else
      var front := ids[..|ids| - 1];
      var last := ids[|ids| - 1];
      assert forall i :: 0 <= i < |front| ==> front[i] == ids[i];
      var prev := Resolve(store, front);
      if prev.Unresolved? then prev
      else match Find(store, last)
        case None => assert FirstMissing(store, ids, |ids| - 1); Unresolved(last)
        case Some(q) => Resolved(prev.found + [q])
  }

  /** The wrappers of a list of questions, in the same order. */
  function WrapAll(found: seq<Question>): seq<QuestionWrapper>
  {
    seq(|found|, i requires 0 <= i < |found| => Wrap(found[i]))
  }

  /** `getQuestionsFromId`: 403 with no body on an empty id list; otherwise
      the exception for the first unknown id, or 200 with one wrapper per
      id, in input order, carrying that question's id, title and options. */
  function FetchWrapped(store: seq<Question>, ids: seq<int>): (r: Outcome<seq<QuestionWrapper>>)
    ensures ids == [] ==> r == Reply(Forbidden, None)
    ensures ids != [] && AllStored(store, ids) ==>
      && r.Reply? && r.status == Ok && r.body.Some?
      && |r.body.value| == |ids|
      && forall i :: 0 <= i < |ids| ==>
           var q := Find(store, ids[i]).value;
           r.body.value[i] == QuestionWrapper(ids[i], q.questionTitle, q.option1, q.option2, q.option3, q.option4)
    ensures ids != [] && !AllStored(store, ids) ==>
      exists k :: FirstMissing(store, ids, k) && r == NoSuchElement(ids[k])
  {
    if ids == [] then Reply(Forbidden, None)
    else match Resolve(store, ids)
      case Unresolved(id) => NoSuchElement(id)
      case Resolved(found) => Reply(Ok, Some(WrapAll(found)))
  }

  /** Two banks that differ at most in the fields a wrapper leaves out
      (right answer, category, difficulty level). */
  ghost predicate SamePublicView(s1: seq<Question>, s2: seq<Question>)
  {
    |s1| == |s2| && forall i :: 0 <= i < |s1| ==> Wrap(s1[i]) == Wrap(s2[i])
  }

  lemma {:induction false} FindSamePublicView(s1: seq<Question>, s2: seq<Question>, id: int)
    requires SamePublicView(s1, s2)
    ensures Find(s1, id).Some? == Find(s2, id).Some?
    ensures Find(s1, id).Some? ==> Wrap(Find(s1, id).value) == Wrap(Find(s2, id).value)
  {
    if s1 != [] {
      assert Wrap(s1[0]) == Wrap(s2[0]);
      assert SamePublicView(s1[1..], s2[1..]) by {
        forall i | 0 <= i < |s1[1..]| ensures Wrap(s1[1..][i]) == Wrap(s2[1..][i]) {
          assert Wrap(s1[i + 1]) == Wrap(s2[i + 1]);
        }
      }
      FindSamePublicView(s1[1..], s2[1..], id);
    }
  }

  /** Redaction: right answers (and categories and difficulty levels) have
      no influence on what `getQuestionsFromId` returns. */
  lemma RightAnswersNeverLeak(s1: seq<Question>, s2: seq<Question>, ids: seq<int>)
    requires SamePublicView(s1, s2)
    ensures FetchWrapped(s1, ids) == FetchWrapped(s2, ids)
  {
    forall id ensures Find(s1, id).Some? == Find(s2, id).Some?
      && (Find(s1, id).Some? ==> Wrap(Find(s1, id).value) == Wrap(Find(s2, id).value))
    {
      FindSamePublicView(s1, s2, id);
    }
    if ids != [] && AllStored(s1, ids) {
      assert AllStored(s2, ids);
      var w1, w2 := FetchWrapped(s1, ids).body.value, FetchWrapped(s2, ids).body.value;
      assert forall i :: 0 <= i < |ids| ==> w1[i] == w2[i];
      assert w1 == w2;
      assert FetchWrapped(s1, ids) == Reply(Ok, Some(w1));
      assert FetchWrapped(s2, ids) == Reply(Ok, Some(w2));
    } else if ids != [] {
      var r1, r2 := FetchWrapped(s1, ids), FetchWrapped(s2, ids);
      var k1 :| FirstMissing(s1, ids, k1) && r1 == NoSuchElement(ids[k1]);
      var k2 :| FirstMissing(s2, ids, k2) && r2 == NoSuchElement(ids[k2]);
      assert FirstMissing(s2, ids, k1);
    }
  }

  // ---------------------------------------------------------------------
  // getScore: fail-fast grading
  // ---------------------------------------------------------------------

  /** A response the grading loop gets past: a positive id naming a stored question. */
  predicate Gradable(store: seq<Question>, r: Response)
  {
    r.id > 0 && Find(store, r.id).Some?
  }

  /** A response whose text is exactly its question's right answer. */
  predicate IsRight(store: seq<Question>, r: Response)
  {
    Gradable(store, r) && r.response == Find(store, r.id).value.rightAnswer
  }

  /** The number of right responses, counted from the front. */
  function CountRight(store: seq<Question>, rs: seq<Response>): (n: nat)
    ensures n <= |rs|
  {
    if rs == [] then 0
    else (if IsRight(store, rs[0]) then 1 else 0) + CountRight(store, rs[1..])
  }

  lemma {:induction false} CountRightAppend(store: seq<Question>, rs: seq<Response>, x: Response)
    ensures CountRight(store, rs + [x]) == CountRight(store, rs) + (if IsRight(store, x) then 1 else 0)
  {
    if rs == [] {
      assert rs + [x] == [x];
    } else {
      assert (rs + [x])[1..] == rs[1..] + [x];
      CountRightAppend(store, rs[1..], x);
    }
  }

  /** The grading loop over the responses, in order: 200 with the running
      count while every response is gradable; 400 with score 0 at the first
      id <= 0; the exception at the first positive id naming no question. */
  function Grade(store: seq<Question>, rs: seq<Response>): (r: Outcome<int>)
    ensures r.Reply? ==> r.body.Some? && 0 <= r.body.value <= |rs|
    ensures r.Reply? && r.status != Ok ==> r == Reply(BadRequest, Some(0))
  {
    if rs == [] then Reply(Ok, Some(0))
    else
      var prev := Grade(store, rs[..|rs| - 1]);
      var last := rs[|rs| - 1];
      if !(prev.Reply? && prev.status == Ok) then prev
      else if last.id <= 0 then Reply(BadRequest, Some(0))
      else match Find(store, last.id)
        case None => NoSuchElement(last.id)
        case Some(q) => Reply(Ok, Some(prev.body.value + if last.response == q.rightAnswer then 1 else 0))
  }

  /** Grading that has stopped on a prefix stays stopped with the same outcome. */
  lemma {:induction false} GradeStops(store: seq<Question>, rs: seq<Response>, k: nat)
    requires k <= |rs|
    requires !(Grade(store, rs[..k]).Reply? && Grade(store, rs[..k]).status == Ok)
    ensures Grade(store, rs) == Grade(store, rs[..k])
  {
    if k < |rs| {
      var front := rs[..|rs| - 1];
      assert front[..k] == rs[..k];
      GradeStops(store, front, k);
      assert rs[..|rs|] == rs;
    } else {
      assert rs[..k] == rs;
    }
  }

  /** With every response gradable, the outcome is 200 with the number of
      right responses; conversely a 200 means every response was gradable. */
  lemma {:induction false} GradeCountsRightAnswers(store: seq<Question>, rs: seq<Response>)
    ensures (Grade(store, rs).Reply? && Grade(store, rs).status == Ok)
        <==> (forall i :: 0 <= i < |rs| ==> Gradable(store, rs[i]))
    ensures (forall i :: 0 <= i < |rs| ==> Gradable(store, rs[i])) ==>
      Grade(store, rs) == Reply(Ok, Some(CountRight(store, rs)))
  {
    if rs != [] {
      var front := rs[..|rs| - 1];
      var last := rs[|rs| - 1];
      assert rs == front + [last];
      assert forall i :: 0 <= i < |front| ==> front[i] == rs[i];
      GradeCountsRightAnswers(store, front);
      CountRightAppend(store, front, last);
    }
  }

  /** Fail-fast: when the first response that is not gradable has an id
      <= 0, the call answers 400 with score 0, whatever was counted before
      it and whatever follows it. */
  lemma GradeRejectsNonPositiveId(store: seq<Question>, rs: seq<Response>, k: nat)
    requires k < |rs| && rs[k].id <= 0
    requires forall i :: 0 <= i < k ==> Gradable(store, rs[i])
    ensures Grade(store, rs) == Reply(BadRequest, Some(0))
  {
    var front := rs[..k];
    assert forall i :: 0 <= i < |front| ==> front[i] == rs[i];
    GradeCountsRightAnswers(store, front);
    assert rs[..k + 1][..k] == front;
    GradeStops(store, rs, k + 1);
  }

  /** When the first response that is not gradable has a positive id that
      names no question, `Optional.get()` throws on that id. */
  lemma GradeThrowsOnUnknownId(store: seq<Question>, rs: seq<Response>, k: nat)
    requires k < |rs| && rs[k].id > 0 && Find(store, rs[k].id).None?
    requires forall i :: 0 <= i < k ==> Gradable(store, rs[i])
    ensures Grade(store, rs) == NoSuchElement(rs[k].id)
  {
    var front := rs[..k];
    assert forall i :: 0 <= i < |front| ==> front[i] == rs[i];
    GradeCountsRightAnswers(store, front);
    assert rs[..k + 1][..k] == front;
    GradeStops(store, rs, k + 1);
  }

  /** A bank holding questions 7, 13 and 14, with the right answers the
      score examples below submit. */
  function ExampleBank(): seq<Question>
  {
    [ Question(7, "Which sizes?", "8 and 16", "32 and 64", "16 and 32", "64 and 128", "32 and 64", "Easy", "Java"),
      Question(13, "Which apply?", "A", "B", "C", "Both A and C", "Both A and C", "Medium", "Java"),
      Question(14, "Which debugger?", "GDB", "JDB", "LLDB", "PDB", "JDB", "Easy", "Java") ]
  }

  /** Three right answers to questions 7, 13 and 14 score 3 with 200. */
  lemma ScoreOfThreeRightAnswers()
    ensures Grade(ExampleBank(), [Response(7, "32 and 64"), Response(13, "Both A and C"), Response(14, "JDB")])
         == Reply(Ok, Some(3))
  {
    var rs := [Response(7, "32 and 64"), Response(13, "Both A and C"), Response(14, "JDB")];
    GradeCountsRightAnswers(ExampleBank(), rs);
    assert CountRight(ExampleBank(), rs) == 3 by {
      assert rs[1..][1..][1..] == [];
    }
  }

  /** The same batch with id 0 in front scores 0 with 400: the two right
      answers after it are not counted. */
  lemma ScoreWithZeroIdFirst()
    ensures Grade(ExampleBank(), [Response(0, "32 and 64"), Response(13, "Both A and C"), Response(14, "JDB")])
         == Reply(BadRequest, Some(0))
  {
    GradeRejectsNonPositiveId(ExampleBank(), [Response(0, "32 and 64"), Response(13, "Both A and C"), Response(14, "JDB")], 0);
  }

  // ---------------------------------------------------------------------
  // The service over its store
  // ---------------------------------------------------------------------

  class QuestionService {
    /** The question table, in insertion order. */
    var questions: seq<Question>
    /** The id the table assigns to the next saved question. */
    var nextId: int

    /** Stored ids are positive, below the next id to assign, and unique
        (the table's primary key). */
    ghost predicate Valid()
      reads this
    {
      && 1 <= nextId
      && (forall i :: 0 <= i < |questions| ==> 1 <= questions[i].id < nextId)
      && (forall i, j :: 0 <= i < j < |questions| ==> questions[i].id != questions[j].id)
    }

    constructor ()
      ensures Valid() && questions == [] && nextId == 1
    {
      questions := [];
      nextId := 1;
    }

    /** `getAllQuestions`: the whole table, with 200. */
    function GetAllQuestions(): (r: Outcome<seq<Question>>)
      reads this
      ensures r.Reply? && r.status == Ok && r.body == Some(questions)
    {
      Reply(Ok, Some(questions))
    }

    /** `getQuestionsByCategory`: exactly the stored questions of that
        category, each as often as it is stored, with 200; an unknown
        category gives an empty list. */
    function GetQuestionsByCategory(category: string): (r: Outcome<seq<Question>>)
      reads this
      ensures r.Reply? && r.status == Ok && r.body.Some?
      ensures forall q :: q in r.body.value <==> q in questions && q.category == category
      ensures forall q :: multiset(r.body.value)[q] == if q.category == category then multiset(questions)[q] else 0
    {
      ByCategoryCounts(questions, category);
      Reply(Ok, Some(ByCategory(questions, category)))
    }

    /** `addQuestion`: an empty title is refused with ("failure", 406) and
        the table is untouched; otherwise the question is saved under a
        fresh id and ("success", 201) is returned, and no other question
        and no other category listing changes. */
    method AddQuestion(question: Question) returns (r: Outcome<string>)
      requires Valid()
      modifies this
      ensures Valid()
      ensures question.questionTitle == [] ==>
        r == Reply(NotAcceptable, Some("failure")) && questions == old(questions) && nextId == old(nextId)
      ensures question.questionTitle != [] ==>
        && r == Reply(Created, Some("success"))
        && questions == old(questions) + [question.(id := old(nextId))]
        && nextId == old(nextId) + 1
      ensures question.questionTitle != [] ==>
        && Find(questions, old(nextId)) == Some(question.(id := old(nextId)))
        && (forall id :: id != old(nextId) ==> Find(questions, id) == Find(old(questions), id))
        && (forall c :: c != question.category ==> ByCategory(questions, c) == ByCategory(old(questions), c))
    {
      if question.questionTitle == [] {
        return Reply(NotAcceptable, Some("failure"));
      }
      var saved := question.(id := nextId);
      FindAfterSave(questions, saved);
      forall c ensures ByCategory(questions + [saved], c)
                    == ByCategory(questions, c) + (if saved.category == c then [saved] else []) {
        ByCategoryAfterSave(questions, saved, c);
      }
      questions := questions + [saved];
      nextId := nextId + 1;
      r := Reply(Created, Some("success"));
    }

    /** `getQuestionsForQuiz`: the ids the table's random sample query
        returned (`sampled`), passed on unchanged with 200. */
    function GetQuestionsForQuiz(categoryName: string, numQuestions: int, sampled: seq<int>): (r: Outcome<seq<int>>)
      ensures r.Reply? && r.status == Ok && r.body == Some(sampled)
    {
      Reply(Ok, Some(sampled))
    }

    /** `getQuestionsFromId`: look every id up, then wrap every question. */
    method GetQuestionsFromId(questionIds: seq<int>) returns (r: Outcome<seq<QuestionWrapper>>)
      ensures r == FetchWrapped(questions, questionIds)
    {
      var wrappers: seq<QuestionWrapper> := [];
      var found: seq<Question> := [];
      if questionIds == [] {
        return Reply(Forbidden, None);
      }
      var i := 0;
      while i < |questionIds|
        invariant 0 <= i <= |questionIds|
        invariant Resolve(questions, questionIds[..i]) == Resolved(found)
      {
        assert questionIds[..i + 1][..i] == questionIds[..i];
        match Find(questions, questionIds[i]) {
          case None =>
            assert Resolve(questions, questionIds[..i + 1]) == Unresolved(questionIds[i]);
            ResolveStops(questions, questionIds, i + 1);
            return NoSuchElement(questionIds[i]);
          case Some(q) =>
            found := found + [q];
        }
        i := i + 1;
      }
      assert questionIds[..i] == questionIds;
      var j := 0;
      while j < |found|
        invariant 0 <= j <= |found|
        invariant wrappers == WrapAll(found[..j])
      {
        assert found[..j + 1] == found[..j] + [found[j]];
        wrappers := wrappers + [Wrap(found[j])];
        j := j + 1;
      }
      assert found[..j] == found;
      r := Reply(Ok, Some(wrappers));
    }

    /** `getScore`: count exact matches with the right answer, giving up
        with (0, 400) at the first id <= 0. */
    method GetScore(responses: seq<Response>) returns (r: Outcome<int>)
      ensures r == Grade(questions, responses)
    {
      var rightAnswers := 0;
      var i := 0;
      while i < |responses|
        invariant 0 <= i <= |responses|
        invariant Grade(questions, responses[..i]) == Reply(Ok, Some(rightAnswers))
      {
        var response := responses[i];
        assert responses[..i + 1][..i] == responses[..i];
        if response.id <= 0 {
          GradeStops(questions, responses, i + 1);
          return Reply(BadRequest, Some(0));
        }
        match Find(questions, response.id) {
          case None =>
            GradeStops(questions, responses, i + 1);
            return NoSuchElement(response.id);
          case Some(question) =>
            if response.response == question.rightAnswer {
              rightAnswers := rightAnswers + 1;
            }
        }
        i := i + 1;
      }
      assert responses[..i] == responses;
      r := Reply(Ok, Some(rightAnswers));
    }
  }

  /** A lookup that has stopped on a prefix stays stopped on the same id. */
  lemma {:induction false} ResolveStops(store: seq<Question>, ids: seq<int>, k: nat)
    requires k <= |ids|
    requires Resolve(store, ids[..k]).Unresolved?
    ensures Resolve(store, ids) == Resolve(store, ids[..k])
  {
    if k < |ids| {
      var front := ids[..|ids| - 1];
      assert front[..k] == ids[..k];
      ResolveStops(store, front, k);
    } else {
      assert ids[..k] == ids;
    }
  }
}
