/**
 * The documents table's page count: the page size comes from the `perPage` query
 * value (10 when it is absent or not an integer) and the number of pages is
 * `Math.ceil(totalItems / pageSize)`.
 */
module DocumentTable {
  import opened Wrappers
  import Paging

  const DefaultPageSize: int := 10

  /** `useQueryState('perPage', parseAsInteger.withDefault(10))`. */
  function PageSize(perPage: Option<int>): (r: int)
    ensures perPage.None? ==> r == DefaultPageSize
    ensures perPage.Some? ==> r == perPage.value
  {
    perPage.GetOr(DefaultPageSize)
  }

  /**
   * `Math.ceil(totalItems / pageSize)`. A zero page size makes the quotient
   * non-finite (`Infinity`, or `NaN` when there are no items), shown as `None`.
   * A negative page size gives the ceiling of a non-positive quotient.
   */
  function PageCount(totalItems: nat, pageSize: int): Option<int> {
    if pageSize > 0 then Some((totalItems + pageSize - 1) / pageSize)
    else if pageSize < 0 then Some(-(totalItems / -pageSize))
    else None
  }

  /**
   * For a positive page size the count is the least number of pages that holds
   * every item: enough pages, and no surplus page.
   */
  lemma {:induction false} PageCountIsCeiling(totalItems: nat, pageSize: int)
    requires pageSize > 0
    ensures PageCount(totalItems, pageSize).Some?
    ensures PageCount(totalItems, pageSize).value >= 0
    ensures PageCount(totalItems, pageSize).value * pageSize >= totalItems
    ensures (PageCount(totalItems, pageSize).value - 1) * pageSize < totalItems || totalItems == 0
    ensures totalItems == 0 ==> PageCount(totalItems, pageSize).value == 0
  {
    var n := totalItems + pageSize - 1;
    var q := n / pageSize;
    var r := n % pageSize;
    assert n == q * pageSize + r && 0 <= r < pageSize;
    assert q * pageSize == totalItems + pageSize - 1 - r;
    assert (q - 1) * pageSize == q * pageSize - pageSize;
    if totalItems == 0 {
      Paging.MulAwayFromZero(q, pageSize);
    }
  }

  /** More items never need fewer pages. */
  lemma PageCountMonotone(t1: nat, t2: nat, pageSize: int)
    requires pageSize > 0 && t1 <= t2
    ensures PageCount(t1, pageSize).value <= PageCount(t2, pageSize).value
  {
    PageCountIsCeiling(t1, pageSize);
    PageCountIsCeiling(t2, pageSize);
  }

  /** The pages the table offers, read one after the other, show every item exactly once. */
  lemma PagesCoverAll<T>(items: seq<T>, pageSize: int)
    requires pageSize > 0
    ensures Paging.Pages(items, pageSize, PageCount(|items|, pageSize).value) == items
  {
    PageCountIsCeiling(|items|, pageSize);
    var k := PageCount(|items|, pageSize).value;
    Paging.PagesArePrefix(items, pageSize, k);
    assert Paging.Min(k * pageSize, |items|) == |items|;
  }

  /** The page size in effect with no `perPage` in the query shows 10 items a page. */
  lemma DefaultPageCount(totalItems: nat)
    ensures PageCount(totalItems, PageSize(None)) == Some((totalItems + 9) / 10)
  {
  }
}
