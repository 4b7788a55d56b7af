/**
 * Fuzzy text comparison (internal/config/func_textcompare.go): a
 * case-insensitive sliding-window Levenshtein search, and the `compareText`
 * CEL binding built on it.
 */
module TextCompare {
  import opened Text
  import opened Cel

  function Min3(a: nat, b: nat, c: nat): nat {
    if a <= b && a <= c then a else if b <= c then b else c
  }

  /** The standard Levenshtein edit distance (insertions, deletions, substitutions). */
  function EditDistance(a: string, b: string): nat
    decreases |a| + |b|
  {
    if |a| == 0 then |b|
    else if |b| == 0 then |a|
    else Min3(EditDistance(a[1..], b) + 1,
              EditDistance(a, b[1..]) + 1,
              EditDistance(a[1..], b[1..]) + (if a[0] == b[0] then 0 else 1))
  }

  lemma {:induction false} EditDistanceSelf(s: string)
    ensures EditDistance(s, s) == 0
  {
    if |s| > 0 {
      EditDistanceSelf(s[1..]);
    }
  }

  /** The window of `h` of length `n` starting at `i` is within `maxDist` edits of `needle`. */
  predicate WindowWithin(h: string, needle: string, i: int, maxDist: int)
    requires 0 <= i && i + |needle| <= |h|
  {
    EditDistance(h[i..i + |needle|], needle) <= maxDist
  }

  /** What `FuzzySubstringMatch` decides, stated without the loop. */
  predicate FuzzyMatch(haystack: string, needle: string, maxDist: int) {
    var h, n := Lower(haystack), Lower(needle);
    if |n| == 0 then false
    else if |h| < |n| then EditDistance(h, n) <= maxDist
    else exists i :: 0 <= i <= |h| - |n| && WindowWithin(h, n, i, maxDist)
  }

  /** FuzzySubstringMatch: the loop with early return at the first close-enough window. */
  method FuzzySubstringMatch(haystack: string, needle: string, maxDist: int) returns (r: bool)
    ensures r == FuzzyMatch(haystack, needle, maxDist)
    ensures needle == "" ==> !r
    ensures |haystack| < |needle| ==> (r <==> EditDistance(Lower(haystack), Lower(needle)) <= maxDist)
  {
    var h := Lower(haystack);
    var nd := Lower(needle);
    var n, m := |nd|, |h|;
    if n == 0 {
      return false;
    }
    if m < n {
      return EditDistance(h, nd) <= maxDist;
    }
    var i := 0;
    while i <= m - n
      invariant 0 <= i <= m - n + 1
      invariant forall k :: 0 <= k < i ==> !WindowWithin(h, nd, k, maxDist)
    {
      if EditDistance(h[i..i + n], nd) <= maxDist {
        assert WindowWithin(h, nd, i, maxDist);
        return true;
      }
      i := i + 1;
    }
    return false;
  }

  /** An exact (case-insensitive) occurrence of a non-empty needle matches for every maxDist >= 0. */
  lemma ExactOccurrenceMatches(haystack: string, needle: string, maxDist: int)
    requires needle != "" && maxDist >= 0
    requires Contains(Lower(haystack), Lower(needle))
    ensures FuzzyMatch(haystack, needle, maxDist)
  {
    var h, n := Lower(haystack), Lower(needle);
    var i :| 0 <= i <= |h| - |n| && OccursAt(n, h, i);
    assert h[i..i + |n|] == n;
    EditDistanceSelf(n);
    assert WindowWithin(h, n, i, maxDist);
  }

  /** Matching ignores case: lower-casing either argument first changes nothing. */
  lemma FuzzyMatchIgnoresCase(haystack: string, needle: string, maxDist: int)
    ensures FuzzyMatch(Lower(haystack), needle, maxDist) == FuzzyMatch(haystack, needle, maxDist)
    ensures FuzzyMatch(haystack, Lower(needle), maxDist) == FuzzyMatch(haystack, needle, maxDist)
  {
    LowerIdempotent(haystack);
    LowerIdempotent(needle);
  }

  /** A larger tolerance never turns a match into a mismatch. */
  lemma FuzzyMatchMonotone(haystack: string, needle: string, d1: int, d2: int)
    requires d1 <= d2 && FuzzyMatch(haystack, needle, d1)
    ensures FuzzyMatch(haystack, needle, d2)
  {
    var h, n := Lower(haystack), Lower(needle);
    if |h| >= |n| > 0 {
      var i :| 0 <= i <= |h| - |n| && WindowWithin(h, n, i, d1);
      assert WindowWithin(h, n, i, d2);
    }
  }

  /** compareTextBinding: containment first, then a fuzzy fallback for arguments of length >= 4. */
  function CompareText(lhs: Val, rhs: Val): (r: bool)
    ensures !lhs.StrVal? || !rhs.StrVal? ==> !r
    ensures r ==> lhs.StrVal? && rhs.StrVal? && lhs.s != "" && rhs.s != ""
    ensures (lhs.StrVal? && rhs.StrVal? && lhs.s != "" && rhs.s != "" &&
             Contains(Lower(rhs.s), Lower(lhs.s))) ==> r
    ensures r && lhs.StrVal? && |lhs.s| < 4 ==> Contains(Lower(rhs.s), Lower(lhs.s))
    ensures r && lhs.StrVal? && rhs.StrVal? ==> FuzzyMatch(rhs.s, lhs.s, 1)
    ensures (lhs.StrVal? && rhs.StrVal? && lhs.s != "" && rhs.s != "" &&
             |lhs.s| >= 4 && FuzzyMatch(rhs.s, lhs.s, 1)) ==> r
  {
    if !lhs.StrVal? || !rhs.StrVal? then false
    else
      var al, bl := Lower(lhs.s), Lower(rhs.s);
      if bl == "" || al == "" then false
      else if Contains(bl, al) then
        ExactOccurrenceMatches(rhs.s, lhs.s, 1);
        true
      else if |al| >= 4 && FuzzyMatch(bl, al, 1) then
        FuzzyMatchIgnoresCase(rhs.s, lhs.s, 1);
        FuzzyMatchIgnoresCase(rhs.s, al, 1);
        true
      else
        FuzzyMatchIgnoresCase(rhs.s, lhs.s, 1);
        FuzzyMatchIgnoresCase(rhs.s, al, 1);
        false
  }
}
