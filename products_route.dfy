/**
 * The `/api/products` route handler. GET decodes the query, builds the `where`
 * object step by step and returns one page of the matches, newest first. POST
 * checks the required fields with JavaScript truthiness, so a price of `0` counts
 * as missing, and stores `null` for an absent or empty photo URL.
 */
module ProductsRoute {
  import opened Wrappers
  import opened ProductModel
  import Text
  import Seqs
  import Paging

  datatype ListQuery = ListQuery(page: int, limit: int, search: string, categories: seq<string>)

  /** Page 1 and limit 10 when absent, no search, and the non-empty `.`-separated categories. */
  function DecodeQuery(q: ProductsQuery): (r: ListQuery)
    ensures q.page.None? ==> r.page == 1
    ensures q.limit.None? ==> r.limit == 10
    ensures q.search.None? ==> r.search == ""
    ensures q.page.Some? ==> r.page == q.page.value
    ensures q.limit.Some? ==> r.limit == q.limit.value
    ensures q.search.Some? ==> r.search == q.search.value
    ensures q.categories.None? ==> r.categories == []
    ensures q.categories.Some? ==> r.categories == Text.SplitNonEmpty(q.categories.value, '.')
    ensures Text.Separable(r.categories, '.')
  {
    var categories := match q.categories
      case None => []
      case Some(s) => Text.SplitNonEmpty(s, '.');
    ListQuery(q.page.GetOr(1), q.limit.GetOr(10), q.search.GetOr(""), categories)
  }

  /** The case-insensitive substring test of the `OR` clause: name, description or category. */
  predicate SearchHit(search: string, p: Product) {
    || Text.ContainsIgnoreCase(p.name, search)
    || Text.ContainsIgnoreCase(p.description, search)
    || Text.ContainsIgnoreCase(p.category, search)
  }

  /** The search text in a searched field, and the category among the listed ones, when given. */
  predicate Matches(q: ListQuery, p: Product) {
    && (q.search != "" ==> SearchHit(q.search, p))
    && (|q.categories| > 0 ==> p.category in q.categories)
  }

  function Matching(store: seq<Product>, q: ListQuery): seq<Product> {
    Seqs.Filter(store, p => Matches(q, p))
  }

  datatype Where = Where(anyOf: Option<string>, categoryIn: Option<seq<string>>)

  predicate Satisfies(w: Where, p: Product) {
    && (w.anyOf.Some? ==> SearchHit(w.anyOf.value, p))
    && (w.categoryIn.Some? ==> p.category in w.categoryIn.value)
  }

  /** Builds the `where` object by conditional assignment, as the handler does. */
  method BuildWhere(q: ListQuery) returns (w: Where)
    ensures forall p :: Satisfies(w, p) <==> Matches(q, p)
    ensures w.anyOf.Some? <==> q.search != ""
    ensures w.categoryIn.Some? <==> |q.categories| > 0
  {
    w := Where(None, None);
    if q.search != "" {
      w := w.(anyOf := Some(q.search));
    }
    if |q.categories| > 0 {
      w := w.(categoryIn := Some(q.categories));
    }
  }

  datatype ListResponse = Listed(page: ProductsPage) | ServerError

  /** `GET /api/products` against a store ordered newest first. */
  method List(store: seq<Product>, query: ProductsQuery) returns (r: ListResponse)
    ensures var q := DecodeQuery(query);
      var offset := Paging.Offset(q.page, q.limit);
      && (r.Listed? <==> offset >= 0 && q.limit >= 0)
      && (r.Listed? ==>
        && r.page.totalProducts == |Matching(store, q)|
        && r.page.offset == offset
        && r.page.limit == q.limit
        && r.page.products == Paging.Window(Matching(store, q), offset, q.limit))
  {
    var q := DecodeQuery(query);
    var offset := Paging.Offset(q.page, q.limit);
    var where := BuildWhere(q);
    var matches := Seqs.Filter(store, p => Satisfies(where, p));
    Seqs.FilterCongruent(store, p => Satisfies(where, p), p => Matches(q, p));
    var total := |matches|;
    if offset < 0 || q.limit < 0 {
      return ServerError;
    }
    r := Listed(ProductsPage(total, offset, q.limit, Paging.Window(matches, offset, q.limit)));
  }

  /** A product is listed exactly when it passes the search and category constraints. */
  lemma MatchingMembership(store: seq<Product>, q: ListQuery, p: Product)
    ensures p in Matching(store, q) <==>
      && p in store
      && (q.search == "" || SearchHit(q.search, p))
      && (q.categories == [] || p.category in q.categories)
  {
    Seqs.FilterMembership(store, p => Matches(q, p), p);
  }

  /** An empty search text and an empty category list let every product through. */
  lemma EmptyFiltersMatchAll(store: seq<Product>, q: ListQuery)
    requires q.search == "" && q.categories == []
    ensures Matching(store, q) == store
  {
    Seqs.FilterAll(store, p => Matches(q, p));
  }

  /** The JSON body of `POST /api/products`; any field may be missing. */
  datatype CreateBody = CreateBody(
    name: Option<string>,
    description: Option<string>,
    price: Option<real>,
    category: Option<string>,
    photoUrl: Option<string>)

  /** `!!price` for a JSON number: present and not zero. */
  predicate TruthyPrice(v: Option<real>) {
    v.Some? && v.value != 0.0
  }

  predicate HasRequiredFields(body: CreateBody) {
    Truthy(body.name) && Truthy(body.description) && TruthyPrice(body.price) && Truthy(body.category)
  }

  datatype CreateResponse = MissingFields | Created(product: Product)

  function Status(r: CreateResponse): int {
    if r.MissingFields? then 400 else 201
  }

  /** `POST /api/products` on a store ordered newest first; `newId` is the id the database assigns. */
  function Create(store: seq<Product>, body: CreateBody, newId: int): (r: (CreateResponse, seq<Product>))
    ensures Status(r.0) == 400 <==> !HasRequiredFields(body)
    ensures Status(r.0) == 400 ==> r.0 == MissingFields && r.1 == store
    ensures Status(r.0) == 201 ==> r.0.Created? && r.1 == [r.0.product] + store
    ensures r.0.Created? ==>
      && r.0.product.id == newId
      && r.0.product.name == body.name.value
      && r.0.product.description == body.description.value
      && r.0.product.price == body.price.value && r.0.product.price != 0.0
      && r.0.product.category == body.category.value
      && r.0.product.photoUrl == (if Truthy(body.photoUrl) then body.photoUrl else None)
  {
    if !HasRequiredFields(body) then (MissingFields, store)
    else
      var p := Product(newId, body.name.value, body.description.value, body.price.value,
                       body.category.value, if Truthy(body.photoUrl) then body.photoUrl else None);
      (Created(p), [p] + store)
  }

  /** A free product cannot be created: a price of `0` is reported as a missing field. */
  lemma ZeroPriceRejected(store: seq<Product>, body: CreateBody, newId: int)
    requires body.price == Some(0.0)
    ensures Create(store, body, newId).0 == MissingFields
    ensures Create(store, body, newId).1 == store
  {
  }
}
