# Trivia questions backend: a Dafny model of the request handlers

The backend stores trivia questions (text, answer, category, difficulty) and
categories, and serves them over a small REST interface: paginated listings of
all questions and of one category, a case-insensitive search on question
text, creation and deletion of questions, and a quiz mode that draws a random
question the player has not seen yet.

This project models the logic of those handlers with the web framework and
the database replaced by plain values:

- `models.dfy` (module `Models`): the `Question` and `Category` records, a
  JSON value type for request values (scalars, lists and objects), `Response<T>` (`Ok(body)` or
  `Err(status, message)`, the pair a handler passes to `abort`), and the
  order-preserving `Filter` from which every store query is built, with its
  lemmas (concatenation, multiplicities, subsequence, composition).
- `pagination.dfy` (module `Pagination`): `paginate_questions` with Python's
  slice rules written out (negative bounds count from the end, then bounds
  are clamped), and the lemmas that pages are at most 10 long, that pages
  `1..ceil(n/10)` put together give back the listing, and when a page is empty.
- `search.dfy` (module `Search`): ASCII lower-casing and a substring test,
  proved equal to "occurs at some position"; that is what
  `ilike('%term%')` means for a term without LIKE metacharacters (`%`, `_`
  and the escape character `\`).
- `flaskr.dfy` (module `Flaskr`): the listings and the search as pure
  functions over the store's contents; the validation chain of question
  creation as a function; and a `Store` class (questions in table order,
  categories, the next id) whose methods `CreateQuestion`, `DeleteQuestion`
  and `SelectQuiz` are the three handlers that mutate the store or loop.

Replaced by parameters:

- the `page` query argument is an `Option<int>`. `None` stands for an absent
  argument and for one that does not parse as an integer; Flask gives the
  default 1 in both cases.
- Python's `int()` is the injected function `toInt: JsonValue -> Option<int>`.
  It returns `None` where `int()` raises.
- `random()` is an injected real `u` with `0 <= u < 1`. The drawn index is
  `floor(u * |pool|)`, as in the source.
- The request bodies are records of `Option`s. `None` is an absent key.
- The database is the `Store` object. Inserting appends a record with id
  `nextId`. Deleting removes the record with that id. Queries return records
  in table order.

`format()` only renders a record's fields, so a formatted question is modelled
by the `Question` value itself.

The integration tests in `backend/test_flaskr.py` expect the messages
'resource not found' and 'unprocessable'. The code passes 'page not found'
and 'category not found' to `abort`, and its error handlers send back that
description. The model follows the code.

## Model

| member | source | states |
|---|---|---|
| Pagination.Paginate | backend/flaskr/__init__.py:12-20 | under Python slicing every page, zero and negative pages included, has at most 10 items; for page p >= 1 it is items[(p-1)*10 .. min(p*10, n)] and is empty exactly when (p-1)*10 >= n; page 0 is empty; a negative page is the slice counted from the end; an absent page argument means page 1 |
| Pagination.PagesUpToIsPrefix | backend/flaskr/__init__.py:14-18 | pages 1..k laid end to end are the first min(10k, n) items |
| Pagination.PagesReassemble | backend/flaskr/__init__.py:14-18 | concatenating pages 1..ceil(n/10) gives back the whole listing |
| Pagination.PageNonEmptyIff | backend/flaskr/__init__.py:14-18 | page p >= 1 is non-empty if and only if p <= ceil(n/10) |
| Pagination.NegativePageNonEmptyIff | backend/flaskr/__init__.py:14-18 | a negative page p is non-empty if and only if n + 10p > 0 |
| Pagination.NegativePageCountsFromEnd | backend/flaskr/__init__.py:13-18 | page -1 of a 25-item listing is items 5..14, so a negative page can be non-empty |
| Search.ContainsIff | backend/flaskr/__init__.py:168 | the substring test holds exactly when the term occurs at some position of the text |
| Search.MatchIgnoresCase | backend/flaskr/__init__.py:168 | a match is an occurrence of the lower-cased term in the lower-cased text, and lower-casing the text, the term or both first changes nothing |
| Search.EmptyTermOccurs | backend/flaskr/__init__.py:168 | the empty term occurs in every text |
| Flaskr.GetAllQuestions | backend/flaskr/__init__.py:68-81 | 404 'page not found' exactly when the page is empty (always for page 0); otherwise 1..10 questions, the slice of the table for that page (for p >= 1 items (p-1)*10 .. min(p*10, n), for p < 0 the slice counted from the end), total_questions = size of the table, the categories, current_category 0 |
| Flaskr.GetCategoryQuestions | backend/flaskr/__init__.py:183-201 | 422 'category not found' exactly when no question has the category, whatever the page; 404 'page not found' exactly when there are matches but the page is empty; on success the questions are the slice of the matches for that page (for p >= 1 and for p < 0 counted from the end), each has the category, total_questions counts all matches and current_category is the id asked for |
| Flaskr.CategoryMatchesCounted | backend/flaskr/__init__.py:185-198 | the category's matches keep table order and hold each question of the category as often as the table does |
| Flaskr.SearchQuestions | backend/flaskr/__init__.py:160-173 | 400 "request doesn't have searchTerm" exactly when the term is absent; otherwise the result is the order-preserving subsequence of exactly the questions whose text contains the term ignoring case, with their multiplicities; the empty term returns every question |
| Flaskr.CheckNewQuestion | backend/flaskr/__init__.py:114-133 | the four checks, first failure wins: a missing key gives its 400 message; otherwise a non-integer difficulty or category; otherwise a difficulty outside 1..5; otherwise an unknown category; each message exactly when the earlier checks pass and its own fails; success exactly when all four checks pass, and no other message is ever returned; success yields the request's texts with the coerced difficulty in 1..5 and an existing category |
| Flaskr.Store.CreateQuestion | backend/flaskr/__init__.py:112-147 | on a validation failure the store is unchanged and the failure is returned; on success exactly one question with the next id is appended, nothing else changes, the returned id was not in use and picks out that question alone |
| Flaskr.InsertThenDeleteRestores | backend/flaskr/__init__.py:136-142 | deleting the id of a question inserted with a fresh id gives back the table before the insert |
| Flaskr.WithoutIdRemovesOne | backend/flaskr/__init__.py:92-96 | with unique ids, deleting by an existing id removes exactly that record and keeps the others in order |
| Flaskr.Store.DeleteQuestion | backend/flaskr/__init__.py:90-99 | an unknown id gives 404 'question not found' and leaves the store unchanged; a known id removes that one record, the others stay in order, ids stay unique |
| Flaskr.QuizPool | backend/flaskr/__init__.py:230-240 | the pool holds exactly the questions of the category (all of them for category 0) whose id is not among the previous ones, in table order and each as often as the table holds it |
| Flaskr.BuildPool | backend/flaskr/__init__.py:236-240 | the loop keeps, in order, exactly the candidates whose id is not among the previous ones |
| Flaskr.Draw | backend/flaskr/__init__.py:247 | floor(u * n) is a valid index of a pool of size n |
| Flaskr.DrawInterval | backend/flaskr/__init__.py:247 | index k is drawn for exactly the u in [k/n, (k+1)/n), an interval of the same width for every k |
| Flaskr.DrawReachesEveryIndex | backend/flaskr/__init__.py:247-248 | every index of the pool is drawn by some value of random() |
| Flaskr.Store.SelectQuiz | backend/flaskr/__init__.py:215-253 | a missing previous_questions or quiz_category gives 400; a nonzero unknown category gives 400 "category doesn't exist", and category 0 is never looked up; otherwise an empty pool gives no question and a non-empty one gives pool[floor(u * |pool|)], a question of the store not asked before and of the requested category when it is nonzero |

## Left out

- App construction, routing, CORS and the `after_request` headers (backend/flaskr/__init__.py:22-39): framework wiring with no logic.
- `get_categories` (backend/flaskr/__init__.py:47-54): it only lists and renders the categories.
- The JSON error handlers (backend/flaskr/__init__.py:260-297): an error is the `(status, message)` pair of `Err`, which is what they render.
- The database and its models: the store is a sequence of records, a sequence of categories and a next-id counter; transactions and concurrent requests are not modelled.
- Python's `int()` rules (`int(3.7) == 3`, `int("3.7")` raises, `int(True) == 1`): `toInt` is a parameter, so the model holds for every coercion function.
- Flaskr.Store.SelectQuiz: `int(data['quiz_category']['id'])` is unchecked in the source; a missing `id` or a value `int()` rejects ends the request with a 500, which the model does not capture: it receives the id already coerced.
- Flaskr.Store.SelectQuiz: `previous_questions` is taken to be a list of integer ids; Python's `in` on other JSON values (strings, objects, floats equal to an id) is not modelled.
- Flaskr.SearchQuestions: the `searchTerm` value is taken to be a string; a JSON `null` or number, which the f-string renders as `None` or digits inside the pattern, is not modelled.
- Flaskr.Store.CreateQuestion: the `question` and `answer` values are taken to be strings; how the database converts other JSON values is not modelled.
- A JSON body that is missing or not an object (`get_json()` returning `None`, a 500): every request body is a well-formed object.
- Search.MatchIgnoresCase: LIKE metacharacters inside the search term are not modelled: the wildcards `%` and `_`, and the backslash, which PostgreSQL treats as the escape character by default (no ESCAPE clause is given), so the term `a\b` matches the text "ab" in the database but not in the model. Unicode case folding is not modelled either; matching is plain substring search after ASCII lower-casing.
- Flaskr.Draw: `random()` and `floor` are computed on exact reals, so floating-point rounding is not modelled.
