/**
 * The server-rendered product listing: the page's query values (`page`, `name`,
 * `perPage`, `category`) become the filters passed to `getProducts`, and the
 * reported total goes to the table.
 */
module ProductListing {
  import opened Wrappers
  import opened ProductModel
  import opened ProductsApi
  import Text

  /** The listing page's query values as the search-parameter cache returns them. */
  datatype ListingParams = ListingParams(
    page: int,
    name: Option<string>,
    perPage: int,
    category: Option<string>)

  /**
   * The `filters` object: page and limit always; `search` only for a non-empty
   * name; `categories` only for a non-empty value, split on `.`.
   */
  function ListingFilters(p: ListingParams): (f: ProductFilters)
    ensures f.page == Some(p.page) && f.limit == Some(p.perPage)
    ensures f.search.Some? <==> Truthy(p.name)
    ensures f.search.Some? ==> f.search == p.name
    ensures f.categories.Some? <==> Truthy(p.category)
    ensures f.categories.Some? ==> Text.Join(f.categories.value, '.') == p.category.value
    ensures f.categories.Some? ==> forall i :: 0 <= i < |f.categories.value| ==> '.' !in f.categories.value[i]
  {
    Text.JoinSplit(p.category.GetOr(""), '.');
    ProductFilters(
      Some(p.page),
      Some(p.perPage),
      if Truthy(p.name) then p.name else None,
      if Truthy(p.category) then Some(Text.Split(p.category.value, '.')) else None)
  }

  datatype TableProps = TableProps(data: seq<Product>, totalItems: nat)

  function ListingTable(response: ProductsPage): (t: TableProps)
    ensures t.totalItems == response.totalProducts && t.data == response.products
  {
    TableProps(response.products, response.totalProducts)
  }

  /** The raw `category` value reaches the query string unchanged; absent or empty, as `""`. */
  lemma ListingSendsRawCategories(p: ListingParams)
    ensures GetProductsQuery(ListingFilters(p)).categories == Some(p.category.GetOr(""))
    ensures GetProductsQuery(ListingFilters(p)).search == Some(p.name.GetOr(""))
    ensures GetProductsQuery(ListingFilters(p)).page == Some(p.page)
    ensures GetProductsQuery(ListingFilters(p)).limit == Some(p.perPage)
  {
  }
}
