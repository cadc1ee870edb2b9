/** Paging arithmetic of the table: the page count, the clamp applied by
    `changePage`, the page buttons `calculatePageNumbers` lists and the
    record range the paging info shows. */
module Paging {

  /** `Math.ceil(a / b)` for a positive divisor. */
  function CeilDiv(a: int, b: int): (q: int)
    requires b > 0
    ensures (q - 1) * b < a <= q * b
  {
    -((-a) / b)
  }

  function Max(a: int, b: int): int { if a >= b then a else b }
  function Min(a: int, b: int): int { if a <= b then a else b }

  /** The page `changePage(pageNumber)` moves to:
      `Math.max(1, Math.min(pageNumber, Math.ceil(total / pageSize)))`. */
  function ClampPage(pageNumber: int, total: int, pageSize: int): (p: int)
    requires pageSize > 0
    ensures 1 <= p
    ensures p <= Max(1, CeilDiv(total, pageSize))
    ensures 1 <= pageNumber <= CeilDiv(total, pageSize) ==> p == pageNumber
    ensures pageNumber > CeilDiv(total, pageSize) ==> p == Max(1, CeilDiv(total, pageSize))
    ensures pageNumber < 1 ==> p == 1
  {
    Max(1, Min(pageNumber, CeilDiv(total, pageSize)))
  }

  /** With records present, the clamped page is a page that has records:
      it starts inside the record range. */
  lemma ClampedPageHasRecords(pageNumber: int, total: int, pageSize: int)
    requires pageSize > 0 && total > 0
    ensures var p := ClampPage(pageNumber, total, pageSize);
      1 <= p <= CeilDiv(total, pageSize) && (p - 1) * pageSize < total
  {
    var n := CeilDiv(total, pageSize);
    PositiveFactor(n, pageSize);
    var p := ClampPage(pageNumber, total, pageSize);
    assert (p - 1) * pageSize <= (n - 1) * pageSize;
  }

  lemma PositiveFactor(a: int, b: int)
    ensures b > 0 && a * b > 0 ==> a > 0
  {
    if b > 0 && a <= 0 { assert a * b <= 0; }
  }

  /** The paging info's `startRecord` and `endRecord`. */
  function PagingRange(currentPage: int, pageSize: int, total: int): (int, int) {
    ((currentPage - 1) * pageSize + 1, Min(currentPage * pageSize, total))
  }

  /** For a page inside the record range, the info line shows a non-empty
      range of at most one page of records, inside `1..total`. */
  lemma PagingRangeBounds(currentPage: int, pageSize: int, total: int)
    requires pageSize > 0 && total > 0
    requires 1 <= currentPage <= CeilDiv(total, pageSize)
    ensures var (first, last) := PagingRange(currentPage, pageSize, total);
      1 <= first <= last <= total && last - first < pageSize
  {
    var n := CeilDiv(total, pageSize);
    var m := (currentPage - 1) * pageSize;
    MulMono(currentPage - 1, n - 1, pageSize);
    MulMono(0, currentPage - 1, pageSize);
    assert currentPage * pageSize == m + pageSize;
  }

  lemma MulMono(a: int, c: int, b: int)
    requires a <= c && b >= 0
    ensures a * b <= c * b
  {
    assert c * b - a * b == (c - a) * b;
  }

  /** `[lo, lo + 1, ..., hi]` */
  function Range(lo: int, hi: int): (r: seq<int>)
    ensures |r| == if lo <= hi then hi - lo + 1 else 0
    ensures forall k :: 0 <= k < |r| ==> r[k] == lo + k
    decreases hi - lo
  {
    if lo > hi then [] else [lo] + Range(lo + 1, hi)
  }

  /** The pages `calculatePageNumbers` always keeps when there are more
      than seven, besides the current page and its two neighbours. */
  predicate Shown(x: int, totalPages: int, current: int) {
    x == 1 || x == 2 || x == totalPages - 1 || x == totalPages
    || (Max(1, current - 1) <= x <= Min(totalPages, current + 1))
  }

  /** The numbers of `lo..hi` that are shown, in increasing order. */
  function ShownFrom(lo: int, hi: int, totalPages: int, current: int): (r: seq<int>)
    decreases hi - lo
  {
    if lo > hi then []
    else if Shown(lo, totalPages, current) then [lo] + ShownFrom(lo + 1, hi, totalPages, current)
    else ShownFrom(lo + 1, hi, totalPages, current)
  }

  /** `calculatePageNumbers(totalPages)` with `state.currentPage == current`:
      the set {1, 2, n-1, n} plus the current page's neighbourhood clipped
      to `1..n`, sorted. */
  function CalculatePageNumbers(totalPages: int, current: int): seq<int> {
    if totalPages <= 7 then Range(1, totalPages)
    else ShownFrom(1, totalPages, totalPages, current)
  }

  lemma {:induction false} ShownFromSpec(lo: int, hi: int, totalPages: int, current: int)
    ensures var r := ShownFrom(lo, hi, totalPages, current);
      (forall i, j :: 0 <= i < j < |r| ==> r[i] < r[j])
      && (forall x :: x in r <==> lo <= x <= hi && Shown(x, totalPages, current))
    decreases hi - lo
  {
    if lo <= hi {
      ShownFromSpec(lo + 1, hi, totalPages, current);
      var rest := ShownFrom(lo + 1, hi, totalPages, current);
      forall k | 0 <= k < |rest| ensures rest[k] > lo {
        assert rest[k] in rest;
      }
      if Shown(lo, totalPages, current) {
        var r := [lo] + rest;
        assert forall x :: x in r <==> x == lo || x in rest;
      }
    }
  }

  /** Up to seven pages, every page is listed. Beyond that the list is
      strictly increasing (so duplicate-free) and holds exactly 1, 2, n-1,
      n and the current page's neighbours that lie in `1..n`. */
  lemma CalculatePageNumbersSpec(totalPages: int, current: int)
    ensures totalPages <= 7 ==> CalculatePageNumbers(totalPages, current) == Range(1, totalPages)
    ensures var r := CalculatePageNumbers(totalPages, current);
      (forall i, j :: 0 <= i < j < |r| ==> r[i] < r[j])
    ensures totalPages > 7 ==> forall x :: x in CalculatePageNumbers(totalPages, current) <==>
      (x == 1 || x == 2 || x == totalPages - 1 || x == totalPages
       || (current - 1 <= x <= current + 1 && 1 <= x <= totalPages))
  {
    if totalPages > 7 {
      ShownFromSpec(1, totalPages, totalPages, current);
    }
  }
}
