/** Records of the trivia store, request values and responses, and the
    order-preserving filter every listing of the store is built from. */
module Models {

  datatype Option<+T> = None | Some(value: T)

  /** A trivia question as the store keeps it and as `format()` renders it. */
  datatype Question = Question(id: int, question: string, answer: string, category: int, difficulty: int)

  /** A category: its id and its display label (the `type` column). */
  datatype Category = Category(id: int, categoryType: string)

  /** A value of a JSON request body. */
  datatype JsonValue =
    | JNull | JBool(b: bool) | JNumber(x: real) | JText(s: string)
    | JList(items: seq<JsonValue>) | JObject(fields: map<string, JsonValue>)

  /** What a handler answers: a success body, or the status and the
      description passed to `abort`. */
  datatype Response<+T> = Ok(value: T) | Err(status: nat, message: string)

  /** True when some category in the store has id `id` (`Category.query.get`). */
  predicate CategoryExists(categories: seq<Category>, id: int)
  {
    exists c :: c in categories && c.id == id
  }

  /** No two questions share an id: the store's primary key. */
  ghost predicate UniqueIds(qs: seq<Question>)
  {
    forall i, j :: 0 <= i < j < |qs| ==> qs[i].id != qs[j].id
  }

  predicate HasId(qs: seq<Question>, id: int)
  {
    exists q :: q in qs && q.id == id
  }

  /** `sub` is obtained from `s` by dropping elements, keeping the order. */
  ghost predicate IsSubsequence<T>(sub: seq<T>, s: seq<T>)
    decreases |s|
  {
    sub == [] ||
    (s != [] &&
     ((sub[0] == s[0] && IsSubsequence(sub[1..], s[1..])) || IsSubsequence(sub, s[1..])))
  }

  /** The elements of `s` satisfying `p`, in their order in `s`. */
  function Filter<T(!new)>(s: seq<T>, p: T -> bool): (r: seq<T>)
    ensures |r| <= |s|
    ensures forall x :: x in r <==> x in s && p(x)
    ensures (forall i :: 0 <= i < |s| ==> p(s[i])) ==> r == s
  {
    if s == [] then []
    else (if p(s[0]) then [s[0]] else []) + Filter(s[1..], p)
  }

  lemma {:induction false} FilterConcat<T(!new)>(a: seq<T>, b: seq<T>, p: T -> bool)
    ensures Filter(a + b, p) == Filter(a, p) + Filter(b, p)
  {
    if a == [] {
      assert a + b == b;
    } else {
      assert (a + b)[1..] == a[1..] + b;
      FilterConcat(a[1..], b, p);
    }
  }

  /** Filtering keeps each kept value as often as it occurs and drops the rest. */
  lemma {:induction false} FilterMultiset<T(!new)>(s: seq<T>, p: T -> bool)
    ensures forall x :: multiset(Filter(s, p))[x] == if p(x) then multiset(s)[x] else 0
  {
    if s != [] {
      FilterMultiset(s[1..], p);
      assert s == [s[0]] + s[1..];
    }
  }

  lemma {:induction false} FilterIsSubsequence<T(!new)>(s: seq<T>, p: T -> bool)
    ensures IsSubsequence(Filter(s, p), s)
  {
    if s != [] {
      FilterIsSubsequence(s[1..], p);
      var r := Filter(s, p);
      if p(s[0]) {
        assert r == [s[0]] + Filter(s[1..], p);
        assert r[0] == s[0] && r[1..] == Filter(s[1..], p);
      } else {
        assert r == Filter(s[1..], p);
      }
    }
  }

  /** Filtering twice is filtering once by both conditions. */
  lemma {:induction false} FilterFilter<T(!new)>(s: seq<T>, p: T -> bool, q: T -> bool, pq: T -> bool)
    requires forall x :: pq(x) == (p(x) && q(x))
    ensures Filter(Filter(s, p), q) == Filter(s, pq)
  {
    if s != [] {
      var rest := Filter(s[1..], p);
      FilterFilter(s[1..], p, q, pq);
      assert Filter(s, pq) == (if pq(s[0]) then [s[0]] else []) + Filter(rest, q);
      if p(s[0]) {
        assert Filter(s, p) == [s[0]] + rest;
        FilterConcat([s[0]], rest, q);
        assert [s[0]][1..] == [];
        assert Filter([s[0]], q) == if q(s[0]) then [s[0]] else [];
      } else {
        assert Filter(s, p) == rest;
      }
    }
  }

  /** Filters by conditions that agree everywhere are equal. */
  lemma {:induction false} FilterExtensional<T(!new)>(s: seq<T>, p: T -> bool, q: T -> bool)
    requires forall x :: p(x) == q(x)
    ensures Filter(s, p) == Filter(s, q)
  {
    if s != [] {
      FilterExtensional(s[1..], p, q);
    }
  }

  /** Filtering out a single rejected element between kept ones removes just it. */
  lemma {:induction false} FilterDropsOne<T(!new)>(pre: seq<T>, x: T, post: seq<T>, p: T -> bool)
    requires forall i :: 0 <= i < |pre| ==> p(pre[i])
    requires forall i :: 0 <= i < |post| ==> p(post[i])
    requires !p(x)
    ensures Filter(pre + [x] + post, p) == pre + post
  {
    var a := pre + [x];
    FilterConcat(a, post, p);
    FilterConcat(pre, [x], p);
    assert [x][1..] == [];
    assert pre + [] == pre;
    calc {
      Filter(a + post, p);
      Filter(a, p) + Filter(post, p);
      Filter(pre, p) + Filter([x], p) + Filter(post, p);
      pre + post;
    }
  }
}
