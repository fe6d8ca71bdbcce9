/**
 * The product record and the query string of a product list request. As for
 * documents, a store is a sequence of records ordered newest first.
 */
module ProductModel {
  import opened Wrappers

  /** `photoUrl` is `None` where the database holds `null`. */
  datatype Product = Product(
    id: int,
    name: string,
    description: string,
    price: real,
    category: string,
    photoUrl: Option<string>)

  /** The URL search parameters of `GET /api/products`; `None` is an absent parameter. */
  datatype ProductsQuery = ProductsQuery(
    page: Option<int>,
    limit: Option<int>,
    search: Option<string>,
    categories: Option<string>)

  /** The JSON body of a successful list response. */
  datatype ProductsPage = ProductsPage(
    totalProducts: nat,
    offset: int,
    limit: int,
    products: seq<Product>)
}
