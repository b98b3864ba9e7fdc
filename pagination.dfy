/**
  The page metadata that list endpoints attach to a page of results
  (getDefaultPaginationReponse in src/utils/pagination.util.ts).

  The source computes `Math.ceil(count / size) || 0` on JavaScript numbers.
  Here `count` and `size` are naturals: `count` is a row count, and a page
  size of zero is only meaningful together with an empty result, where
  0 / 0 is NaN and `NaN || 0` yields 0.
 */
module Pagination {

  /** The response record: the request's page and size, and the totals. */
  datatype PageResponse = PageResponse(page: int, size: nat, totalPages: nat, totalElement: nat)

  /** `Math.ceil(count / size)` for a positive size, computed on naturals. */
  function CeilDiv(count: nat, size: nat): nat
    requires size > 0
  {
    count / size + (if count % size == 0 then 0 else 1)
  }

  /** The JavaScript numbers `Math.ceil(count / size)` can produce here:
      NaN (from 0 / 0) or a finite ceiling. */
  datatype JsNumber = NaN | Finite(value: nat)

  /** `Math.ceil(count / size)` as JavaScript evaluates it. */
  function CeiledQuotient(count: nat, size: nat): JsNumber
    requires size > 0 || count == 0
  {
    if size == 0 then NaN else Finite(CeilDiv(count, size))
  }

  /** `x || 0`: NaN is falsy and gives 0; a finite x is kept (0 is falsy
      too, and gives 0 again). */
  function OrZero(x: JsNumber): nat
  {
    match x
    case NaN => 0
    case Finite(c) => c
  }

  /** Ceiling division is bracketed by the page size: the pages cover every
      element, and one page fewer would not. */
  lemma CeilDivBounds(count: nat, size: nat)
    requires size > 0 || count == 0
    ensures size > 0 ==> CeilDiv(count, size) * size >= count
    ensures size > 0 && count > 0 ==> (CeilDiv(count, size) - 1) * size < count
  {
  }

  /** The page metadata for a request (pagination.util.ts:3-15). */
  function GetDefaultPaginationResponse(page: int, size: nat, count: nat): (r: PageResponse)
    requires size > 0 || count == 0
    ensures r.page == page && r.size == size
    ensures r.totalElement == count
    ensures count == 0 ==> r.totalPages == 0
    ensures size > 0 ==> r.totalPages * size >= count
    ensures size > 0 && count > 0 ==> (r.totalPages - 1) * size < count
    ensures size > 0 ==> (r.totalPages > 0 <==> count > 0)
  {
    CeilDivBounds(count, size);
    PageResponse(page, size, OrZero(CeiledQuotient(count, size)), count)
  }

  /** The number of pages is the least number of pages of `size` elements
      that holds `count` elements: any page count that covers them all is at
      least `totalPages`. */
  lemma TotalPagesIsLeast(page: int, size: nat, count: nat, pages: nat)
    requires size > 0
    requires pages * size >= count
    ensures GetDefaultPaginationResponse(page, size, count).totalPages <= pages
  {
  }
}
