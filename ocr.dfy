/**
 * OCR results and their rectangle filters (internal/domain/ocr.go).
 *
 * `image.Rect` canonicalises its corners so that Min <= Max on each axis;
 * `Overlaps` is false for an empty rectangle and otherwise compares strictly.
 * The confidence score is a `float64` in the source and a `real` here; it is
 * only ever compared.
 */
module Ocr {

  datatype OcrResult = OcrResult(
    text: string,
    score: real,
    x: int,
    y: int,
    width: int,
    height: int,
    avgColor: string,
    bgColor: string)

  datatype Rect = Rect(minX: int, minY: int, maxX: int, maxY: int)

  /** `image.Rect(x0, y0, x1, y1)`: the corners, swapped where needed so that Min <= Max. */
  function MakeRect(x0: int, y0: int, x1: int, y1: int): (r: Rect)
    ensures r.minX <= r.maxX && r.minY <= r.maxY
    ensures {r.minX, r.maxX} == {x0, x1} && {r.minY, r.maxY} == {y0, y1}
  {
    Rect(if x0 <= x1 then x0 else x1, if y0 <= y1 then y0 else y1,
         if x0 <= x1 then x1 else x0, if y0 <= y1 then y1 else y0)
  }

  /** The box of an OCR result, `image.Rect(X, Y, X+Width, Y+Height)`. */
  function BoxOf(r: OcrResult): Rect {
    MakeRect(r.x, r.y, r.x + r.width, r.y + r.height)
  }

  predicate Empty(r: Rect) {
    r.minX >= r.maxX || r.minY >= r.maxY
  }

  /** `Rectangle.Overlaps`: both non-empty and intersecting with positive area. */
  predicate Overlaps(r: Rect, s: Rect) {
    !Empty(r) && !Empty(s) &&
    r.minX < s.maxX && s.minX < r.maxX &&
    r.minY < s.maxY && s.minY < r.maxY
  }

  /** The containment test of FilterByRect, bounds inclusive. */
  predicate InsideRect(r: OcrResult, rect: Rect) {
    var b := BoxOf(r);
    rect.minX <= b.minX && b.maxX <= rect.maxX && rect.minY <= b.minY && b.maxY <= rect.maxY
  }

  /** The elements of `rs` that satisfy `keep`, in their original order. */
  function Filter(rs: seq<OcrResult>, keep: OcrResult -> bool): seq<OcrResult> {
    if rs == [] then [] else Filter(rs[..|rs| - 1], keep) + (if keep(rs[|rs| - 1]) then [rs[|rs| - 1]] else [])
  }

  /** `a` is an order-preserving subsequence of `b`. */
  predicate Subsequence(a: seq<OcrResult>, b: seq<OcrResult>) {
    if a == [] then true
    else if b == [] then false
    else if a[|a| - 1] == b[|b| - 1] then Subsequence(a[..|a| - 1], b[..|b| - 1])
    else Subsequence(a, b[..|b| - 1])
  }

  lemma {:induction false} SubsequenceOfEmpty(b: seq<OcrResult>)
    ensures Subsequence([], b)
  {
  }

  lemma {:induction false} SubsequenceExtend(a: seq<OcrResult>, b: seq<OcrResult>, x: OcrResult)
    requires Subsequence(a, b)
    ensures Subsequence(a, b + [x])
    decreases |b|, 1
  {
    if a != [] {
      var bx := b + [x];
      assert bx[..|bx| - 1] == b;
      if a[|a| - 1] == x {
        SubsequenceDropLast(a, b);
      }
    }
  }

  lemma {:induction false} SubsequenceDropLast(a: seq<OcrResult>, b: seq<OcrResult>)
    requires a != [] && Subsequence(a, b)
    ensures Subsequence(a[..|a| - 1], b)
    decreases |b|, 0
  {
    if |a| > 1 && b != [] {
      if a[|a| - 1] == b[|b| - 1] {
        SubsequenceExtend(a[..|a| - 1], b[..|b| - 1], b[|b| - 1]);
        assert b[..|b| - 1] + [b[|b| - 1]] == b;
      } else {
        SubsequenceDropLast(a, b[..|b| - 1]);
        SubsequenceExtend(a[..|a| - 1], b[..|b| - 1], b[|b| - 1]);
        assert b[..|b| - 1] + [b[|b| - 1]] == b;
      }
    }
  }

  /** Filtering keeps exactly the elements that satisfy `keep`. */
  lemma {:induction false} FilterMembership(rs: seq<OcrResult>, keep: OcrResult -> bool, x: OcrResult)
    ensures x in Filter(rs, keep) <==> x in rs && keep(x)
  {
    if rs != [] {
      FilterMembership(rs[..|rs| - 1], keep, x);
      assert rs == rs[..|rs| - 1] + [rs[|rs| - 1]];
    }
  }

  /** Filtering yields an order-preserving subsequence of its input. */
  lemma {:induction false} FilterSubsequence(rs: seq<OcrResult>, keep: OcrResult -> bool)
    ensures Subsequence(Filter(rs, keep), rs)
  {
    if rs != [] {
      var init, last := rs[..|rs| - 1], rs[|rs| - 1];
      FilterSubsequence(init, keep);
      var f := Filter(init, keep);
      assert init + [last] == rs;
      if keep(last) {
        assert Filter(rs, keep) == f + [last];
        assert (f + [last])[..|f|] == f;
      } else {
        assert Filter(rs, keep) == f + [];
        assert f + [] == f;
        SubsequenceExtend(f, init, last);
      }
    }
  }

  /** FilterByRect: the results whose whole box lies inside `rect`, in input order. */
  method FilterByRect(rs: seq<OcrResult>, rect: Rect) returns (out: seq<OcrResult>)
    ensures out == Filter(rs, r => InsideRect(r, rect))
    ensures forall r :: r in out <==> r in rs && InsideRect(r, rect)
    ensures Subsequence(out, rs)
  {
    out := [];
    var i := 0;
    while i < |rs|
      invariant 0 <= i <= |rs|
      invariant out == Filter(rs[..i], r => InsideRect(r, rect))
    {
      assert rs[..i + 1][..i] == rs[..i];
      var b := BoxOf(rs[i]);
      if rect.minX <= b.minX && b.maxX <= rect.maxX && rect.minY <= b.minY && b.maxY <= rect.maxY {
        out := out + [rs[i]];
      }
      i := i + 1;
    }
    assert rs[..i] == rs;
    forall r | true
      ensures r in out <==> r in rs && InsideRect(r, rect)
    {
      FilterMembership(rs, r => InsideRect(r, rect), r);
    }
    FilterSubsequence(rs, r => InsideRect(r, rect));
  }

  const MinMargin := 10
  const MaxMargin := 50

  /** The margin clamp of FilterByBBox; `raw` stands for `int(float64(d) * 0.05)`. */
  function ClampMargin(raw: int): (m: int)
    ensures MinMargin <= m <= MaxMargin
    ensures MinMargin <= raw <= MaxMargin ==> m == raw
    ensures raw < MinMargin ==> m == MinMargin
    ensures raw > MaxMargin ==> m == MaxMargin
  {
    if raw < MinMargin then MinMargin else if raw > MaxMargin then MaxMargin else raw
  }

  /** The bounding box grown by the clamped margins on every side. */
  function Expand(rect: Rect, rawX: int, rawY: int): Rect {
    var mx, my := ClampMargin(rawX), ClampMargin(rawY);
    MakeRect(rect.minX - mx, rect.minY - my, rect.maxX + mx, rect.maxY + my)
  }

  /** The test FilterByBBox keeps a result by: its box overlaps `e`. */
  function Overlapping(e: Rect): OcrResult -> bool {
    r => Overlaps(BoxOf(r), e)
  }

  /**
   * FilterByBBox: the results whose box overlaps the bounding box `rect`
   * grown by the margins. `rawX` and `rawY` are five per cent of the width
   * and the height, computed in floating point by the source.
   */
  method FilterByBBox(rs: seq<OcrResult>, rect: Rect, rawX: int, rawY: int) returns (out: seq<OcrResult>)
    ensures out == Filter(rs, Overlapping(Expand(rect, rawX, rawY)))
    ensures forall r :: r in out <==> r in rs && Overlaps(BoxOf(r), Expand(rect, rawX, rawY))
    ensures forall r :: r in out ==> r.width != 0 && r.height != 0
    ensures Subsequence(out, rs)
  {
    var marginX := ClampMargin(rawX);
    var marginY := ClampMargin(rawY);
    var expRect := MakeRect(rect.minX - marginX, rect.minY - marginY, rect.maxX + marginX, rect.maxY + marginY);
    out := [];
    var i := 0;
    while i < |rs|
      invariant 0 <= i <= |rs|
      invariant out == Filter(rs[..i], Overlapping(expRect))
    {
      assert rs[..i + 1][..i] == rs[..i];
      if Overlaps(BoxOf(rs[i]), expRect) {
        out := out + [rs[i]];
      }
      i := i + 1;
    }
    assert rs[..i] == rs;
    assert expRect == Expand(rect, rawX, rawY);
    OverlapFilter(rs, expRect);
  }

  /** What the overlap filter keeps: exactly the overlapping results, none of them empty, in order. */
  lemma OverlapFilter(rs: seq<OcrResult>, e: Rect)
    ensures forall r :: r in Filter(rs, Overlapping(e)) <==> r in rs && Overlaps(BoxOf(r), e)
    ensures forall r :: r in Filter(rs, Overlapping(e)) ==> r.width != 0 && r.height != 0
    ensures Subsequence(Filter(rs, Overlapping(e)), rs)
  {
    forall r | true
      ensures r in Filter(rs, Overlapping(e)) <==> r in rs && Overlaps(BoxOf(r), e)
    {
      FilterMembership(rs, Overlapping(e), r);
    }
    FilterSubsequence(rs, Overlapping(e));
  }

  /** Len/Less/Swap order results by descending confidence. */
  predicate Less(rs: seq<OcrResult>, i: int, j: int)
    requires 0 <= i < |rs| && 0 <= j < |rs|
  {
    rs[i].score > rs[j].score
  }

  /** No adjacent pair is out of order for `Less`: `Less(rs, i, i - 1)` holds nowhere. */
  predicate SortedByLess(rs: seq<OcrResult>) {
    forall i :: 0 < i < |rs| ==> !(rs[i].score > rs[i - 1].score)
  }

  /** A sequence that `sort.Sort` leaves with no adjacent inversion has non-increasing confidence throughout. */
  lemma {:induction false} SortedByLessDescending(rs: seq<OcrResult>, i: int, j: int)
    requires SortedByLess(rs) && 0 <= i <= j < |rs|
    ensures rs[i].score >= rs[j].score
    decreases j - i
  {
    if i < j {
      SortedByLessDescending(rs, i + 1, j);
      assert !Less(rs, i + 1, i) by {
        assert !(rs[i + 1].score > rs[i + 1 - 1].score);
      }
    }
  }

  /** Swap exchanges positions i and j and leaves every other position as it was. */
  method Swap(a: array<OcrResult>, i: int, j: int)
    requires 0 <= i < a.Length && 0 <= j < a.Length
    modifies a
    ensures a[i] == old(a[j]) && a[j] == old(a[i])
    ensures forall k :: 0 <= k < a.Length && k != i && k != j ==> a[k] == old(a[k])
    ensures multiset(a[..]) == multiset(old(a[..]))
  {
    a[i], a[j] := a[j], a[i];
  }
}
