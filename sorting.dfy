/**
 * `sort.Sort` over a slice whose `Less` compares one string field with Go's
 * `<`. The model sorts in place by exchanging neighbours, so every change is
 * a `Swap`; the source's algorithm is not part of this model, only what
 * `sort.Sort` promises about its result: ordered, and a permutation.
 */
module Sorting {
  import opened Text

  /** `b` does not come before `a`: Go's `!(b < a)`. */
  predicate Leq(a: string, b: string) {
    !Less(b, a)
  }

  lemma LeqTransitive(a: string, b: string, c: string)
    requires Leq(a, b) && Leq(b, c)
    ensures Leq(a, c)
  {
    LessTotal(a, b);
    if Less(c, a) && Less(a, b) {
      LessTransitive(c, a, b);
    }
  }

  /** Ordered by `key` under Go's string order. */
  predicate SortedBy<T>(s: seq<T>, key: T -> string) {
    forall p, q :: 0 <= p < q < |s| ==> Leq(key(s[p]), key(s[q]))
  }

  /** Sorts `a` by `key`: the result is ordered and holds the same elements. */
  method SortBy<T>(a: array<T>, key: T -> string)
    modifies a
    ensures SortedBy(a[..], key)
    ensures multiset(a[..]) == multiset(old(a[..]))
  {
    if a.Length == 0 {
      return;
    }
    var i := 1;
    while i < a.Length
      invariant 1 <= i <= a.Length
      invariant forall p, q :: 0 <= p < q < i ==> Leq(key(a[p]), key(a[q]))
      invariant multiset(a[..]) == multiset(old(a[..]))
    {
      var j := i;
      while j > 0 && Less(key(a[j]), key(a[j - 1]))
        invariant 0 <= j <= i
        invariant forall p, q :: 0 <= p < q <= i && p != j && q != j ==> Leq(key(a[p]), key(a[q]))
        invariant forall q :: j < q <= i ==> Less(key(a[j]), key(a[q]))
        invariant multiset(a[..]) == multiset(old(a[..]))
      {
        a[j], a[j - 1] := a[j - 1], a[j];
        j := j - 1;
      }
      Inserted(a[..], key, i, j);
      i := i + 1;
    }
    assert a[..] == a[..a.Length];
  }

  /** Once the element at `j` has sunk past every larger neighbour, `s[..i+1]` is ordered. */
  lemma Inserted<T>(s: seq<T>, key: T -> string, i: int, j: int)
    requires 0 <= j <= i < |s|
    requires forall p, q :: 0 <= p < q <= i && p != j && q != j ==> Leq(key(s[p]), key(s[q]))
    requires forall q :: j < q <= i ==> Less(key(s[j]), key(s[q]))
    requires j == 0 || !Less(key(s[j]), key(s[j - 1]))
    ensures forall p, q :: 0 <= p < q <= i ==> Leq(key(s[p]), key(s[q]))
  {
    forall p, q | 0 <= p < q <= i
      ensures Leq(key(s[p]), key(s[q]))
    {
      if q == j {
        if p < j - 1 {
          LeqTransitive(key(s[p]), key(s[j - 1]), key(s[j]));
        }
      } else if p == j {
        LessAsymmetric(key(s[j]), key(s[q]));
      }
    }
  }
}
