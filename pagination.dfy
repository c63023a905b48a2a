/** Pagination of question listings: page `p` is the Python slice
    `items[(p-1)*10 : (p-1)*10+10]`, with Python's rules for negative and
    out-of-range slice bounds. */
module Pagination {
  import opened Models

  const QUESTIONS_PER_PAGE: nat := 10

  function Min(a: int, b: int): int { if a <= b then a else b }
  function Max(a: int, b: int): int { if a >= b then a else b }

  /** Python's normalisation of a slice bound `i` against a length `n`:
      a negative bound counts from the end, then the bound is clamped to `0..n`. */
  function SliceBound(i: int, n: nat): (b: nat)
    ensures b <= n
  {
    if i < 0 then Max(i + n, 0) else Min(i, n)
  }

  /** `s[i:j]` in Python (step 1): never fails, empty when the normalised
      bounds cross. */
  function PySlice<T>(s: seq<T>, i: int, j: int): seq<T>
  {
    var lo, hi := SliceBound(i, |s|), SliceBound(j, |s|);
    if lo < hi then s[lo..hi] else []
  }

  /** The `page` query argument; `None` stands for an absent argument and for
      one that does not parse as an integer, both of which give the default 1. */
  function PageNumber(arg: Option<int>): int
  {
    match arg
    case None => 1
    case Some(p) => p
  }

  /** `paginate_questions`: the page selected by the `page` argument. */
  function Paginate<T>(arg: Option<int>, items: seq<T>): (r: seq<T>)
    ensures |r| <= QUESTIONS_PER_PAGE
    ensures forall i :: 0 <= i < |r| ==> r[i] in items
    ensures var p, n := PageNumber(arg), |items|;
      p >= 1 ==> r == items[Min((p - 1) * QUESTIONS_PER_PAGE, n)..Min(p * QUESTIONS_PER_PAGE, n)]
    ensures var p := PageNumber(arg);
      p >= 1 ==> (r == [] <==> (p - 1) * QUESTIONS_PER_PAGE >= |items|)
    ensures PageNumber(arg) == 0 ==> r == []
    ensures var p, n := PageNumber(arg), |items|;
      p < 0 ==> r == items[Max(n + (p - 1) * QUESTIONS_PER_PAGE, 0)..Max(n + p * QUESTIONS_PER_PAGE, 0)]
  {
    var start := (PageNumber(arg) - 1) * QUESTIONS_PER_PAGE;
    PySlice(items, start, start + QUESTIONS_PER_PAGE)
  }

  /** The number of non-empty pages: the ceiling of `n / 10`. */
  function PageCount(n: nat): nat
  {
    (n + QUESTIONS_PER_PAGE - 1) / QUESTIONS_PER_PAGE
  }

  /** Pages `1..k` laid end to end. */
  function PagesUpTo<T>(items: seq<T>, k: nat): seq<T>
  {
    if k == 0 then [] else PagesUpTo(items, k - 1) + Paginate(Some(k), items)
  }

  lemma {:induction false} PagesUpToIsPrefix<T>(items: seq<T>, k: nat)
    ensures PagesUpTo(items, k) == items[..Min(k * QUESTIONS_PER_PAGE, |items|)]
  {
    if k > 0 {
      PagesUpToIsPrefix(items, k - 1);
      var n := |items|;
      var a, b := Min((k - 1) * QUESTIONS_PER_PAGE, n), Min(k * QUESTIONS_PER_PAGE, n);
      assert Paginate(Some(k), items) == items[a..b];
      assert items[..a] + items[a..b] == items[..b];
    }
  }

  /** Concatenating pages `1..PageCount(|items|)` gives back `items`. */
  lemma PagesReassemble<T>(items: seq<T>)
    ensures PagesUpTo(items, PageCount(|items|)) == items
  {
    var n, k := |items|, PageCount(|items|);
    assert k * QUESTIONS_PER_PAGE >= n;
    PagesUpToIsPrefix(items, k);
  }

  /** Page `p >= 1` is non-empty exactly when `p` is at most the page count. */
  lemma PageNonEmptyIff<T>(p: int, items: seq<T>)
    requires p >= 1
    ensures Paginate(Some(p), items) != [] <==> p <= PageCount(|items|)
  {
  }

  /** A negative page `p` is the slice ending `-10p` items before the end,
      so it is non-empty exactly when more than `-10p` items exist. */
  lemma NegativePageNonEmptyIff<T>(p: int, items: seq<T>)
    requires p < 0
    ensures Paginate(Some(p), items) != [] <==> |items| + p * QUESTIONS_PER_PAGE > 0
  {
  }

  /** A negative page counts from the end of the listing, so it can be
      non-empty: page -1 of 25 items is items 5..14. */
  lemma NegativePageCountsFromEnd<T>(items: seq<T>)
    requires |items| == 25
    ensures Paginate(Some(-1), items) == items[5..15]
  {
  }
}
