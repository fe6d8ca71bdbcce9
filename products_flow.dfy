/** The three layers of a product list request together: listing page, client, route. */
module ProductsFlow {
  import opened Wrappers
  import opened ProductModel
  import Text
  import ProductsApi
  import ProductListing
  import ProductsRoute

  /**
   * The route decodes the request the client was given, with the client's
   * defaults in place of omitted values, for categories that are non-empty and
   * free of `.`.
   */
  lemma ClientRouteRoundTrip(f: ProductsApi.ProductFilters)
    requires Text.Separable(f.categories.GetOr([]), '.')
    ensures ProductsRoute.DecodeQuery(ProductsApi.GetProductsQuery(f)) ==
      ProductsRoute.ListQuery(f.page.GetOr(1), f.limit.GetOr(10), f.search.GetOr(""), f.categories.GetOr([]))
  {
    Text.JoinThenSplitNonEmpty(f.categories.GetOr([]), '.');
  }

  /** The route filters on the non-empty `.`-separated parts of the listing's raw `category`. */
  lemma ListingToRoute(p: ProductListing.ListingParams)
    ensures var q := ProductsRoute.DecodeQuery(ProductsApi.GetProductsQuery(ProductListing.ListingFilters(p)));
      && q.page == p.page
      && q.limit == p.perPage
      && q.search == p.name.GetOr("")
      && q.categories == Text.SplitNonEmpty(p.category.GetOr(""), '.')
  {
    ProductListing.ListingSendsRawCategories(p);
  }
}
