/** The request handlers of the trivia backend, with the Flask request
    replaced by explicit arguments and the SQLAlchemy tables by the `Store`
    class: its questions in table order, its categories and the id the next
    insert receives. */
module Flaskr {
  import opened Models
  import opened Pagination
  import opened Search

  const PAGE_NOT_FOUND := "page not found"
  const QUESTION_NOT_FOUND := "question not found"
  const FIELDS_MISSING := "question, answer, difficulty and category must be provided"
  const NOT_NUMBERS := "difficulty and category must be numbers"
  const DIFFICULTY_OUT_OF_RANGE := "difficulty must be between 1 and 5"
  const CREATE_UNKNOWN_CATEGORY := "category doesn't exists"
  const SEARCH_TERM_MISSING := "request doesn't have searchTerm"
  const CATEGORY_NOT_FOUND := "category not found"
  const QUIZ_FIELDS_MISSING := "previous_questions and quiz_category must be provided"
  const QUIZ_UNKNOWN_CATEGORY := "category doesn't exist"

  /** The success body of both paginated listings. */
  datatype Listing = Listing(questions: seq<Question>, totalQuestions: nat,
                             categories: seq<Category>, currentCategory: int)

  /** The body of `POST /questions`; `None` is an absent key. */
  datatype CreateRequest = CreateRequest(question: Option<string>, answer: Option<string>,
                                         difficulty: Option<JsonValue>, category: Option<JsonValue>)

  /** A question that passed validation and awaits its id. */
  datatype Draft = Draft(question: string, answer: string, category: int, difficulty: int)

  /** The body of `POST /quizzes`: the ids already asked, and
      `int(quiz_category['id'])`; `None` is an absent key. */
  datatype QuizRequest = QuizRequest(previousQuestions: Option<seq<int>>, quizCategory: Option<int>)

  // ---- store queries ------------------------------------------------------

  /** `Question.query.filter(Question.category == c)`. */
  function InCategory(qs: seq<Question>, c: int): seq<Question>
  {
    Filter(qs, (q: Question) => q.category == c)
  }

  /** The table after deleting the question with id `id`. */
  function WithoutId(qs: seq<Question>, id: int): seq<Question>
  {
    Filter(qs, (q: Question) => q.id != id)
  }

  /** The questions whose id is not in `previous`. */
  function Unseen(qs: seq<Question>, previous: seq<int>): seq<Question>
  {
    Filter(qs, (q: Question) => q.id !in previous)
  }

  /** `Question.query.filter(Question.question.ilike('%term%'))`. */
  function SearchMatches(qs: seq<Question>, term: string): seq<Question>
  {
    Filter(qs, (q: Question) => MatchesIgnoringCase(q.question, term))
  }

  // ---- GET /questions -----------------------------------------------------

  /** `get_all_questions`: one page of the whole table; 404 when that page is empty. */
  function GetAllQuestions(questions: seq<Question>, categories: seq<Category>, page: Option<int>): (r: Response<Listing>)
    ensures r.Err? <==> Paginate(page, questions) == []
    ensures r.Err? ==> r == Err(404, PAGE_NOT_FOUND)
    ensures r.Ok? ==> 0 < |r.value.questions| <= QUESTIONS_PER_PAGE
    ensures r.Ok? ==> r.value.totalQuestions == |questions| && r.value.currentCategory == 0
                      && r.value.categories == categories
    ensures var p, n := PageNumber(page), |questions|;
      p >= 1 ==> (r.Ok? <==> (p - 1) * QUESTIONS_PER_PAGE < n)
    ensures var p, n := PageNumber(page), |questions|;
      p >= 1 && r.Ok? ==> r.value.questions == questions[(p - 1) * QUESTIONS_PER_PAGE..Min(p * QUESTIONS_PER_PAGE, n)]
    ensures var p, n := PageNumber(page), |questions|;
      p < 0 && r.Ok? ==> r.value.questions == questions[Max(n + (p - 1) * QUESTIONS_PER_PAGE, 0)..Max(n + p * QUESTIONS_PER_PAGE, 0)]
    ensures PageNumber(page) == 0 ==> r == Err(404, PAGE_NOT_FOUND)
  {
    var current := Paginate(page, questions);
    if |current| == 0 then Err(404, PAGE_NOT_FOUND)
    else Ok(Listing(current, |questions|, categories, 0))
  }

  // ---- GET /categories/<id>/questions ------------------------------------

  /** `get_category_questions`: 422 when no question has the category, checked
      before the page; then 404 when the page is empty. */
  function GetCategoryQuestions(questions: seq<Question>, categories: seq<Category>,
                                categoryId: int, page: Option<int>): (r: Response<Listing>)
    ensures (forall q :: q in questions ==> q.category != categoryId) <==> r == Err(422, CATEGORY_NOT_FOUND)
    ensures r == Err(404, PAGE_NOT_FOUND) <==>
      InCategory(questions, categoryId) != [] && Paginate(page, InCategory(questions, categoryId)) == []
    ensures r.Err? ==> r == Err(422, CATEGORY_NOT_FOUND) || r == Err(404, PAGE_NOT_FOUND)
    ensures r.Ok? ==> 0 < |r.value.questions| <= QUESTIONS_PER_PAGE
    ensures r.Ok? ==> forall q :: q in r.value.questions ==> q in questions && q.category == categoryId
    ensures r.Ok? ==> r.value.totalQuestions == |InCategory(questions, categoryId)|
                      && r.value.currentCategory == categoryId && r.value.categories == categories
    ensures var p, matches := PageNumber(page), InCategory(questions, categoryId);
      p >= 1 && r.Ok? ==> r.value.questions == matches[(p - 1) * QUESTIONS_PER_PAGE..Min(p * QUESTIONS_PER_PAGE, |matches|)]
    ensures var p, matches := PageNumber(page), InCategory(questions, categoryId);
      p < 0 && r.Ok? ==> r.value.questions == matches[Max(|matches| + (p - 1) * QUESTIONS_PER_PAGE, 0)..Max(|matches| + p * QUESTIONS_PER_PAGE, 0)]
    ensures PageNumber(page) == 0 ==> r.Err?
  {
    var matches := InCategory(questions, categoryId);
    if |matches| == 0 then
      assert forall q :: q in questions ==> q.category != categoryId by {
        forall q | q in questions ensures q.category != categoryId {
          var i :| 0 <= i < |questions| && questions[i] == q;
        }
      }
      Err(422, CATEGORY_NOT_FOUND)
    else
      assert matches[0] in questions && matches[0].category == categoryId;
      var current := Paginate(page, matches);
      assert forall q :: q in current ==> q in matches;
      if |current| == 0 then Err(404, PAGE_NOT_FOUND)
      else Ok(Listing(current, |matches|, categories, categoryId))
  }

  /** The category listing keeps table order and holds every question of the
      category as often as the table does, so its length is their number. */
  lemma CategoryMatchesCounted(questions: seq<Question>, c: int)
    ensures IsSubsequence(InCategory(questions, c), questions)
    ensures forall q :: multiset(InCategory(questions, c))[q] == if q.category == c then multiset(questions)[q] else 0
  {
    FilterIsSubsequence(questions, (q: Question) => q.category == c);
    FilterMultiset(questions, (q: Question) => q.category == c);
  }

  // ---- POST /questions/searches -------------------------------------------

  /** `search_questions_by_name`: 400 without a search term; otherwise the
      questions containing the term, ignoring case, in table order. */
  function SearchQuestions(questions: seq<Question>, searchTerm: Option<string>): (r: Response<seq<Question>>)
    ensures r.Err? <==> searchTerm.None?
    ensures r.Err? ==> r == Err(400, SEARCH_TERM_MISSING)
    ensures r.Ok? ==> forall i :: 0 <= i < |r.value| ==>
      r.value[i] in questions && MatchesIgnoringCase(r.value[i].question, searchTerm.value)
    ensures r.Ok? ==> forall q :: q in questions && MatchesIgnoringCase(q.question, searchTerm.value) ==> q in r.value
    ensures r.Ok? ==> IsSubsequence(r.value, questions)
    ensures r.Ok? ==> forall q :: multiset(r.value)[q] ==
                                  if MatchesIgnoringCase(q.question, searchTerm.value) then multiset(questions)[q] else 0
    ensures searchTerm == Some("") ==> r == Ok(questions)
  {
    match searchTerm
    case None => Err(400, SEARCH_TERM_MISSING)
    case Some(term) =>
      var p := (q: Question) => MatchesIgnoringCase(q.question, term);
      FilterIsSubsequence(questions, p);
      FilterMultiset(questions, p);
      assert term == "" ==> forall i :: 0 <= i < |questions| ==> p(questions[i]) by {
        if term == "" {
          forall i | 0 <= i < |questions| ensures p(questions[i]) {
            EmptyTermOccurs(Lower(questions[i].question));
          }
        }
      }
      Ok(SearchMatches(questions, term))
  }

  // ---- POST /questions: validation ----------------------------------------

  predicate FieldsMissing(req: CreateRequest)
  {
    req.question.None? || req.answer.None? || req.difficulty.None? || req.category.None?
  }

  /** The validation chain of `create_new_question`, first failure wins.
      `toInt` is Python's `int()`, `None` where it raises. */
  function CheckNewQuestion(req: CreateRequest, categories: seq<Category>, toInt: JsonValue -> Option<int>): (r: Response<Draft>)
    ensures r.Err? ==> r.status == 400
    ensures r == Err(400, FIELDS_MISSING) <==> FieldsMissing(req)
    ensures r == Err(400, NOT_NUMBERS) <==>
      !FieldsMissing(req) && (toInt(req.difficulty.value).None? || toInt(req.category.value).None?)
    ensures r == Err(400, DIFFICULTY_OUT_OF_RANGE) <==>
      !FieldsMissing(req) && toInt(req.difficulty.value).Some? && toInt(req.category.value).Some?
      && !(1 <= toInt(req.difficulty.value).value <= 5)
    ensures r == Err(400, CREATE_UNKNOWN_CATEGORY) <==>
      !FieldsMissing(req) && toInt(req.difficulty.value).Some? && toInt(req.category.value).Some?
      && 1 <= toInt(req.difficulty.value).value <= 5
      && !CategoryExists(categories, toInt(req.category.value).value)
    ensures r.Ok? <==>
      !FieldsMissing(req) && toInt(req.difficulty.value).Some? && toInt(req.category.value).Some?
      && 1 <= toInt(req.difficulty.value).value <= 5
      && CategoryExists(categories, toInt(req.category.value).value)
    ensures r.Err? ==> r.message in {FIELDS_MISSING, NOT_NUMBERS, DIFFICULTY_OUT_OF_RANGE, CREATE_UNKNOWN_CATEGORY}
    ensures r.Ok? ==> (!FieldsMissing(req)
                       && toInt(req.difficulty.value) == Some(r.value.difficulty)
                       && toInt(req.category.value) == Some(r.value.category)
                       && r.value.question == req.question.value && r.value.answer == req.answer.value)
    ensures r.Ok? ==> 1 <= r.value.difficulty <= 5 && CategoryExists(categories, r.value.category)
  {
    if FieldsMissing(req) then Err(400, FIELDS_MISSING)
    else
      var difficulty, category := toInt(req.difficulty.value), toInt(req.category.value);
      if difficulty.None? || category.None? then Err(400, NOT_NUMBERS)
      else if !(1 <= difficulty.value <= 5) then Err(400, DIFFICULTY_OUT_OF_RANGE)
      else if !CategoryExists(categories, category.value) then Err(400, CREATE_UNKNOWN_CATEGORY)
      else Ok(Draft(req.question.value, req.answer.value, category.value, difficulty.value))
  }

  // ---- POST /quizzes: selection -------------------------------------------

  /** The questions a quiz may ask: those of category `c` (all of them for
      `c == 0`) whose id has not been asked yet, in table order. */
  function QuizPool(questions: seq<Question>, c: int, previous: seq<int>): (pool: seq<Question>)
    ensures forall q :: q in pool <==> q in questions && q.id !in previous && (c != 0 ==> q.category == c)
    ensures IsSubsequence(pool, questions)
    ensures forall q :: multiset(pool)[q] ==
                        if q.id !in previous && (c == 0 || q.category == c) then multiset(questions)[q] else 0
    ensures c == 0 ==> pool == Unseen(questions, previous)
  {
    var candidates := if c == 0 then questions else InCategory(questions, c);
    var pool := Unseen(candidates, previous);
    assert forall q :: q in pool <==> q in questions && q.id !in previous && (c != 0 ==> q.category == c) by {
      forall q ensures q in pool <==> q in questions && q.id !in previous && (c != 0 ==> q.category == c) {
        if q in pool {
          var i :| 0 <= i < |pool| && pool[i] == q;
          if c != 0 {
            var j :| 0 <= j < |candidates| && candidates[j] == q;
          }
        }
        if q in questions && q.id !in previous && (c != 0 ==> q.category == c) {
          var i :| 0 <= i < |questions| && questions[i] == q;
          if c != 0 {
            assert q in candidates;
          }
          var j :| 0 <= j < |candidates| && candidates[j] == q;
        }
      }
    }
    var keep := (q: Question) => q.id !in previous && (c == 0 || q.category == c);
    if c == 0 then
      FilterExtensional(questions, (q: Question) => q.id !in previous, keep);
      FilterIsSubsequence(questions, keep);
      FilterMultiset(questions, keep);
      pool
    else
      FilterFilter(questions, (q: Question) => q.category == c, (q: Question) => q.id !in previous, keep);
      FilterIsSubsequence(questions, keep);
      FilterMultiset(questions, keep);
      pool
  }

  /** `floor(u * n)`: the index drawn from a pool of `n` by `u = random()`. */
  function Draw(u: real, n: nat): (k: nat)
    requires 0.0 <= u < 1.0 && n > 0
    ensures k < n
  {
    var x := u * n as real;
    assert x < n as real;
    x.Floor
  }

  /** Index `k` is drawn for exactly the `u` in `[k/n, (k+1)/n)`, an interval
      of width `1/n`: with a uniform `u` every pool member is equally likely. */
  lemma DrawInterval(u: real, n: nat, k: nat)
    requires 0.0 <= u < 1.0 && n > 0
    ensures Draw(u, n) == k <==> k as real / n as real <= u < (k + 1) as real / n as real
  {
  }

  lemma UnseenSnoc(s: seq<Question>, x: Question, previous: seq<int>)
    ensures Unseen(s + [x], previous) == Unseen(s, previous) + (if x.id !in previous then [x] else [])
  {
    FilterConcat(s, [x], (q: Question) => q.id !in previous);
    assert [x][1..] == [];
  }

  /** The loop of `get_quiz_question` that keeps, in order, the candidates
      whose id was not asked before. */
  method BuildPool(candidates: seq<Question>, previous: seq<int>) returns (pool: seq<Question>)
    ensures pool == Unseen(candidates, previous)
  {
    pool := [];
    var i := 0;
    while i < |candidates|
      invariant 0 <= i <= |candidates|
      invariant pool == Unseen(candidates[..i], previous)
    {
      UnseenSnoc(candidates[..i], candidates[i], previous);
      assert candidates[..i + 1] == candidates[..i] + [candidates[i]];
      if candidates[i].id !in previous {
        pool := pool + [candidates[i]];
      }
      i := i + 1;
    }
    assert candidates[..i] == candidates;
  }

  /** Every index of the pool is drawn by some value of `random()`. */
  lemma DrawReachesEveryIndex(n: nat, k: nat)
    requires k < n
    ensures 0.0 <= k as real / n as real < 1.0 && Draw(k as real / n as real, n) == k
  {
  }

  /** Deleting the id of a question just inserted with a fresh id gives back
      the table as it was before the insert. */
  lemma InsertThenDeleteRestores(qs: seq<Question>, q: Question)
    requires !HasId(qs, q.id)
    ensures WithoutId(qs + [q], q.id) == qs
  {
    forall j | 0 <= j < |qs| ensures qs[j].id != q.id {
      assert qs[j] in qs;
    }
    FilterDropsOne(qs, q, [], (x: Question) => x.id != q.id);
    assert qs + [q] + [] == qs + [q];
    assert qs + [] == qs;
  }

  /** With unique ids, deleting by id removes exactly the one record. */
  lemma WithoutIdRemovesOne(qs: seq<Question>, i: nat)
    requires UniqueIds(qs) && i < |qs|
    ensures WithoutId(qs, qs[i].id) == qs[..i] + qs[i + 1..]
  {
    var id := qs[i].id;
    var pre, post := qs[..i], qs[i + 1..];
    assert qs == pre + [qs[i]] + post;
    forall j | 0 <= j < |post| ensures post[j].id != id {
      assert post[j] == qs[i + 1 + j];
    }
    FilterDropsOne(pre, qs[i], post, (q: Question) => q.id != id);
  }

  lemma RemovalKeepsUniqueIds(qs: seq<Question>, i: nat)
    requires UniqueIds(qs) && i < |qs|
    ensures UniqueIds(qs[..i] + qs[i + 1..])
  {
  }

  // ---- the store ----------------------------------------------------------

  class Store {
    var questions: seq<Question>
    var categories: seq<Category>
    var nextId: int

    /** Ids are the primary key, and every id is below the next one handed out. */
    ghost predicate Valid()
      reads this
    {
      UniqueIds(questions) && forall q :: q in questions ==> q.id < nextId
    }

    constructor (questions: seq<Question>, categories: seq<Category>, nextId: int)
      requires UniqueIds(questions) && forall q :: q in questions ==> q.id < nextId
      ensures Valid()
      ensures this.questions == questions && this.categories == categories && this.nextId == nextId
    {
      this.questions := questions;
      this.categories := categories;
      this.nextId := nextId;
    }

    /** `delete_question_by_id`. */
    method DeleteQuestion(id: int) returns (r: Response<()>)
      requires Valid()
      modifies this
      ensures Valid()
      ensures categories == old(categories) && nextId == old(nextId)
      ensures !HasId(old(questions), id) ==> r == Err(404, QUESTION_NOT_FOUND) && questions == old(questions)
      ensures HasId(old(questions), id) ==> r == Ok(()) && questions == WithoutId(old(questions), id)
                                            && |questions| == |old(questions)| - 1
      ensures forall i :: 0 <= i < |old(questions)| && old(questions)[i].id == id ==>
        questions == old(questions)[..i] + old(questions)[i + 1..]
      ensures forall q :: q in questions <==> q in old(questions) && q.id != id
    {
      if !HasId(questions, id) {
        r := Err(404, QUESTION_NOT_FOUND);
        return;
      }
      var q :| q in questions && q.id == id;
      var i :| 0 <= i < |questions| && questions[i] == q;
      WithoutIdRemovesOne(questions, i);
      RemovalKeepsUniqueIds(questions, i);
      ghost var before := questions;
      questions := WithoutId(questions, id);
      assert questions == before[..i] + before[i + 1..];
      assert forall q' :: q' in questions ==> q' in before;
      forall j | 0 <= j < |before| && before[j].id == id
        ensures questions == before[..j] + before[j + 1..]
      {
        assert j == i;
      }
      r := Ok(());
    }

    /** `create_new_question`: validate, then insert with the next id. */
    method CreateQuestion(req: CreateRequest, toInt: JsonValue -> Option<int>) returns (r: Response<int>)
      requires Valid()
      modifies this
      ensures Valid()
      ensures categories == old(categories)
      ensures match CheckNewQuestion(req, old(categories), toInt)
        case Err(status, message) =>
          r == Err(status, message) && questions == old(questions) && nextId == old(nextId)
        case Ok(d) =>
          r == Ok(old(nextId)) && nextId == old(nextId) + 1
          && questions == old(questions) + [Question(old(nextId), d.question, d.answer, d.category, d.difficulty)]
      ensures r.Ok? ==> !HasId(old(questions), r.value)
      ensures r.Ok? ==> forall q :: q in questions && q.id == r.value ==> q == questions[|questions| - 1]
    {
      var checked := CheckNewQuestion(req, categories, toInt);
      match checked
      case Err(status, message) =>
        r := Err(status, message);
      case Ok(d) =>
        var created := Question(nextId, d.question, d.answer, d.category, d.difficulty);
        ghost var before := questions;
        questions := questions + [created];
        assert forall j :: 0 <= j < |before| ==> questions[j] == before[j] && before[j].id < created.id;
        r := Ok(nextId);
        nextId := nextId + 1;
        forall q | q in questions && q.id == r.value ensures q == questions[|questions| - 1] {
          var j :| 0 <= j < |questions| && questions[j] == q;
        }
    }

    /** `get_quiz_question`: validate the request, build the pool of unasked
        candidates with a loop, and pick `pool[floor(u * |pool|)]`, or
        nothing when the pool is empty. */
    method SelectQuiz(req: QuizRequest, u: real) returns (r: Response<Option<Question>>)
      requires 0.0 <= u < 1.0
      ensures req.previousQuestions.None? || req.quizCategory.None? ==> r == Err(400, QUIZ_FIELDS_MISSING)
      ensures req.previousQuestions.Some? && req.quizCategory.Some? ==>
        var c, previous := req.quizCategory.value, req.previousQuestions.value;
        if c != 0 && !CategoryExists(categories, c) then r == Err(400, QUIZ_UNKNOWN_CATEGORY)
        else var pool := QuizPool(questions, c, previous);
          r == Ok(if pool == [] then None else Some(pool[Draw(u, |pool|)]))
      ensures req.previousQuestions.Some? && req.quizCategory == Some(0) ==> r.Ok?
      ensures r.Ok? && r.value.Some? ==> var q := r.value.value;
        q in questions && q.id !in req.previousQuestions.value
        && (req.quizCategory.value != 0 ==> q.category == req.quizCategory.value)
    {
      if req.previousQuestions.None? || req.quizCategory.None? {
        return Err(400, QUIZ_FIELDS_MISSING);
      }
      var previous := req.previousQuestions.value;
      var c := req.quizCategory.value;
      if c != 0 && !CategoryExists(categories, c) {
        return Err(400, QUIZ_UNKNOWN_CATEGORY);
      }
      var candidates := if c == 0 then questions else InCategory(questions, c);
      var pool := BuildPool(candidates, previous);
      if |pool| == 0 {
        r := Ok(None);
      } else {
        var q := pool[Draw(u, |pool|)];
        assert q in pool;
        r := Ok(Some(q));
      }
    }
  }
}
