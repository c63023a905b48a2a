/** Case-insensitive substring matching, the meaning of
    `Question.question.ilike('%term%')` for a term without LIKE
    metacharacters (`%`, `_` and the escape character `\`). */
module Search {

  /** ASCII lower-casing of one character. */
  function ToLower(c: char): char
  {
    if 'A' <= c <= 'Z' then (c as int + 32) as char else c
  }

  function Lower(s: string): (r: string)
    ensures |r| == |s|
    ensures forall i :: 0 <= i < |s| ==> r[i] == ToLower(s[i])
  {
    seq(|s|, i requires 0 <= i < |s| => ToLower(s[i]))
  }

  /** Lower-casing twice is lower-casing once. */
  lemma LowerIdempotent(s: string)
    ensures Lower(Lower(s)) == Lower(s)
  {
  }

  /** `pat` occurs in `text` starting at position `i`. */
  predicate OccursAt(text: string, pat: string, i: int)
  {
    0 <= i && i + |pat| <= |text| && text[i..i + |pat|] == pat
  }

  /** Substring test, trying each start position from the left. */
  function Contains(text: string, pat: string): bool
    decreases |text|
  {
    if |pat| <= |text| && text[..|pat|] == pat then true
    else if text == [] then false
    else Contains(text[1..], pat)
  }

  /** `Contains` is exactly "occurs at some position". */
  lemma {:induction false} ContainsIff(text: string, pat: string)
    ensures Contains(text, pat) <==> exists i :: OccursAt(text, pat, i)
  {
    if |pat| <= |text| && text[..|pat|] == pat {
      assert OccursAt(text, pat, 0);
    } else if text == [] {
      assert forall i :: !OccursAt(text, pat, i);
    } else {
      ContainsIff(text[1..], pat);
      if Contains(text[1..], pat) {
        var i :| OccursAt(text[1..], pat, i);
        assert text[i + 1..i + 1 + |pat|] == text[1..][i..i + |pat|];
        assert OccursAt(text, pat, i + 1);
      } else {
        forall i | OccursAt(text, pat, i) ensures false {
          assert i != 0;
          assert text[1..][i - 1..i - 1 + |pat|] == text[i..i + |pat|];
          assert OccursAt(text[1..], pat, i - 1);
        }
      }
    }
  }

  /** The empty term occurs in every text. */
  lemma EmptyTermOccurs(text: string)
    ensures Contains(text, [])
  {
  }

  /** The search predicate: `term` occurs in `text`, ignoring ASCII case. */
  predicate MatchesIgnoringCase(text: string, term: string)
  {
    Contains(Lower(text), Lower(term))
  }

  /** A match is an occurrence of the lower-cased term in the lower-cased
      text, and lower-casing either side first changes nothing. */
  lemma MatchIgnoresCase(text: string, term: string)
    ensures MatchesIgnoringCase(text, term) <==> exists i :: OccursAt(Lower(text), Lower(term), i)
    ensures MatchesIgnoringCase(text, term) == MatchesIgnoringCase(Lower(text), Lower(term))
    ensures MatchesIgnoringCase(text, term) == MatchesIgnoringCase(Lower(text), term)
    ensures MatchesIgnoringCase(text, term) == MatchesIgnoringCase(text, Lower(term))
  {
    ContainsIff(Lower(text), Lower(term));
    LowerIdempotent(text);
    LowerIdempotent(term);
  }
}
