/**
 * The client side of the products API: the defaults `getProducts` fills in for
 * omitted filters and the `.`-joined encoding of the category list.
 */
module ProductsApi {
  import opened Wrappers
  import opened ProductModel
  import Text

  datatype ProductFilters = ProductFilters(
    page: Option<int>,
    limit: Option<int>,
    search: Option<string>,
    categories: Option<seq<string>>)

  /** The `filters = {}` default of `getProducts`. */
  const NoFilters: ProductFilters := ProductFilters(None, None, None, None)

  /**
   * The search parameters `getProducts` sends: all four keys, always, with page 1,
   * limit 10, empty search and an empty category list for omitted values.
   */
  function GetProductsQuery(filters: ProductFilters): (q: ProductsQuery)
    ensures q.page.Some? && q.limit.Some? && q.search.Some? && q.categories.Some?
    ensures filters.page.None? ==> q.page == Some(1)
    ensures filters.limit.None? ==> q.limit == Some(10)
    ensures filters.search.None? ==> q.search == Some("")
    ensures filters.categories.None? || filters.categories == Some([]) ==> q.categories == Some("")
  {
    ProductsQuery(
      Some(filters.page.GetOr(1)),
      Some(filters.limit.GetOr(10)),
      Some(filters.search.GetOr("")),
      Some(Text.Join(filters.categories.GetOr([]), '.')))
  }
}
