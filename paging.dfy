/** Page arithmetic shared by the paged listings: the page count computed
    through `f64` and the `has_next` flag. */
module Paging {
  import opened Common

  /** `((total as f64) / (size as f64)).ceil() as i32` for totals below
      2^53, where the division is exact enough for `ceil`: a zero size
      gives NaN (0) or infinity (saturated), and the cast saturates. */
  function TotalPages(total: nat, size: int): (pages: int)
    ensures IsI32(pages)
    ensures size > 0 && total <= I32Max ==> (pages - 1) * size < total <= pages * size
    ensures size > 0 ==> pages >= 0
  {
    if size > 0 then Min(CeilDiv(total, size), I32Max)
    else if size == 0 then
      (if total == 0 then 0 else I32Max)
    else
      Max(-(total / -size), I32Min)
  }

  /** The least `c` with `total <= c * size`. */
  function CeilDiv(total: nat, size: int): (c: nat)
    requires size > 0
    ensures (c - 1) * size < total <= c * size
    ensures c <= total
  {
    var q, r := total / size, total % size;
    assert total == q * size + r && 0 <= r < size;
    MulFacts(q, size);
    if r == 0 then q else q + 1
  }

  lemma MulFacts(q: nat, size: int)
    requires size > 0
    ensures q * size >= q
    ensures (q - 1) * size == q * size - size && (q + 1) * size == q * size + size
  {}

  /** `page < total_pages - 1`. */
  predicate HasNext(page: int, totalPages: int) {
    page < totalPages - 1
  }

  /** With a positive size, `has_next` holds exactly when the next page
      starts before the end of the list. */
  lemma HasNextMeansMore(total: nat, page: int, size: int)
    requires size > 0 && page >= 0 && total <= I32Max
    ensures HasNext(page, TotalPages(total, size)) <==> (page + 1) * size < total
  {
    var p := TotalPages(total, size);
    assert (p - 1) * size < total <= p * size;
    if page + 1 <= p - 1 {
      MulMonotone(page + 1, p - 1, size);
    }
    if (page + 1) * size < total && p <= page + 1 {
      MulMonotone(p, page + 1, size);
    }
  }

  lemma MulMonotone(a: int, b: int, size: int)
    requires a <= b && size > 0
    ensures a * size <= b * size
  {}
}
