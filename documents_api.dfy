/**
 * The client side of the documents API: the defaults `getDocuments` fills in for
 * omitted filters, the `.`-joined encoding of the subject and phase lists, and the
 * present-or-absent handling of a single document in `getDocument`. The HTTP calls
 * themselves are outside the model; their outcome is a parameter.
 */
module DocumentsApi {
  import opened Wrappers
  import opened DocumentModel
  import Text

  /** `DocumentFilters`: every field may be omitted. */
  datatype DocumentFilters = DocumentFilters(
    page: Option<int>,
    limit: Option<int>,
    search: Option<string>,
    subjects: Option<seq<string>>,
    phases: Option<seq<string>>)

  /** The `filters = {}` default of `getDocuments`. */
  const NoFilters: DocumentFilters := DocumentFilters(None, None, None, None, None)

  /**
   * The search parameters `getDocuments` sends: all five keys, always, with
   * page 1, limit 10, empty search and empty lists standing in for omitted values.
   */
  function GetDocumentsQuery(filters: DocumentFilters): (q: DocumentsQuery)
    ensures q.page.Some? && q.limit.Some? && q.search.Some? && q.subjects.Some? && q.phases.Some?
    ensures filters.page.None? ==> q.page == Some(1)
    ensures filters.limit.None? ==> q.limit == Some(10)
    ensures filters.search.None? ==> q.search == Some("")
    ensures filters.subjects.None? || filters.subjects == Some([]) ==> q.subjects == Some("")
    ensures filters.phases.None? || filters.phases == Some([]) ==> q.phases == Some("")
  {
    DocumentsQuery(
      Some(filters.page.GetOr(1)),
      Some(filters.limit.GetOr(10)),
      Some(filters.search.GetOr("")),
      Some(Text.Join(filters.subjects.GetOr([]), '.')),
      Some(Text.Join(filters.phases.GetOr([]), '.')))
  }

  /** The body of a single-document response; `document` may be missing. */
  datatype DocumentResponse = DocumentResponse(success: bool, message: string, document: Option<Document>)

  /** What `fetch` gave back: a successful response with its body, or a non-OK status. */
  datatype Fetched = Ok(body: DocumentResponse) | NotOk

  datatype GetDocumentError = FetchFailed(id: int) | NotFound(id: int)

  datatype GetDocumentResult = Found(document: Document) | Failed(error: GetDocumentError)

  /** `getDocument(id)`: the response's document when there is one, an error otherwise. */
  function GetDocument(id: int, fetched: Fetched): (r: GetDocumentResult)
    ensures r.Found? <==> fetched.Ok? && fetched.body.document.Some?
    ensures r.Found? ==> r.document == fetched.body.document.value
    ensures fetched.NotOk? ==> r == Failed(FetchFailed(id))
    ensures fetched.Ok? && fetched.body.document.None? ==> r == Failed(NotFound(id))
  {
    match fetched
    case NotOk => Failed(FetchFailed(id))
    case Ok(body) =>
      match body.document
      case Some(d) => Found(d)
      case None => Failed(NotFound(id))
  }
}
