/**
 * The three layers of a document list request together: the listing page builds
 * filters, `getDocuments` encodes them into the query string, and the route
 * handler decodes that query string.
 */
module DocumentsFlow {
  import opened Wrappers
  import opened DocumentModel
  import Text
  import DocumentsApi
  import DocumentListing
  import DocumentsRoute

  /**
   * Whatever filters the client is given, the route decodes the same request,
   * with the client's defaults in place of omitted values, provided the listed
   * subjects and phases are non-empty and free of `.`.
   */
  lemma ClientRouteRoundTrip(f: DocumentsApi.DocumentFilters)
    requires Text.Separable(f.subjects.GetOr([]), '.')
    requires Text.Separable(f.phases.GetOr([]), '.')
    ensures DocumentsRoute.DecodeQuery(DocumentsApi.GetDocumentsQuery(f)) ==
      DocumentsRoute.ListQuery(f.page.GetOr(1), f.limit.GetOr(10), f.search.GetOr(""),
                               f.subjects.GetOr([]), f.phases.GetOr([]))
  {
    Text.JoinThenSplitNonEmpty(f.subjects.GetOr([]), '.');
    Text.JoinThenSplitNonEmpty(f.phases.GetOr([]), '.');
  }

  /**
   * From the listing page's raw `subject` and `phase` values to the route: the
   * route filters on their non-empty `.`-separated parts, and on nothing when
   * they are absent.
   */
  lemma ListingToRoute(p: DocumentListing.ListingParams)
    ensures var q := DocumentsRoute.DecodeQuery(DocumentsApi.GetDocumentsQuery(DocumentListing.ListingFilters(p)));
      && q.page == p.page
      && q.limit == p.perPage
      && q.search == p.name.GetOr("")
      && q.subjects == Text.SplitNonEmpty(p.subject.GetOr(""), '.')
      && q.phases == Text.SplitNonEmpty(p.phase.GetOr(""), '.')
  {
    DocumentListing.ListingSendsRawLists(p);
  }

  /** With no filters at all the route lists the whole store, ten records a page. */
  lemma NoFiltersListsEverything(store: seq<Document>)
    ensures var q := DocumentsRoute.DecodeQuery(DocumentsApi.GetDocumentsQuery(DocumentsApi.NoFilters));
      && q == DocumentsRoute.ListQuery(1, 10, "", [], [])
      && DocumentsRoute.Matching(store, q) == store
  {
    var q := DocumentsRoute.DecodeQuery(DocumentsApi.GetDocumentsQuery(DocumentsApi.NoFilters));
    assert Text.Split("", '.') == [""];
    DocumentsRoute.EmptyFiltersMatchAll(store, q);
  }
}
