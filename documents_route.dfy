/**
 * The `/api/documents` route handler. GET decodes the query, builds the store's
 * `where` object step by step, counts the matches and returns one page of them,
 * newest first. POST checks the four required fields and creates the record with
 * an empty attachment URL when none is given.
 */
module DocumentsRoute {
  import opened Wrappers
  import opened DocumentModel
  import Text
  import Seqs
  import Paging

  /** The decoded list request. */
  datatype ListQuery = ListQuery(
    page: int,
    limit: int,
    search: string,
    subjects: seq<string>,
    phases: seq<string>)

  /** `searchParams.get(key)?.split('.').filter(Boolean) || []`. */
  function DecodeList(raw: Option<string>): (r: seq<string>)
    ensures raw.None? ==> r == []
    ensures raw.Some? ==> r == Text.SplitNonEmpty(raw.value, '.')
  {
    match raw
    case None => []
    case Some(s) => Text.SplitNonEmpty(s, '.')
  }

  /** Page 1 and limit 10 when absent, no search, and the non-empty `.`-separated parts. */
  function DecodeQuery(q: DocumentsQuery): (r: ListQuery)
    ensures q.page.None? ==> r.page == 1
    ensures q.limit.None? ==> r.limit == 10
    ensures q.search.None? ==> r.search == ""
    ensures q.page.Some? ==> r.page == q.page.value
    ensures q.limit.Some? ==> r.limit == q.limit.value
    ensures q.search.Some? ==> r.search == q.search.value
    ensures r.subjects == DecodeList(q.subjects) && r.phases == DecodeList(q.phases)
    ensures Text.Separable(r.subjects, '.') && Text.Separable(r.phases, '.')
  {
    ListQuery(q.page.GetOr(1), q.limit.GetOr(10), q.search.GetOr(""), DecodeList(q.subjects), DecodeList(q.phases))
  }

  /** The case-insensitive substring test of the `OR` clause, over the four searched fields. */
  predicate SearchHit(search: string, d: Document) {
    || Text.ContainsIgnoreCase(d.subject, search)
    || Text.ContainsIgnoreCase(d.teacherName, search)
    || Text.ContainsIgnoreCase(d.phase, search)
    || Text.ContainsIgnoreCase(d.academicYear, search)
  }

  /**
   * What a list request asks for: the search text in one of the searched fields,
   * the subject among the listed subjects and the phase among the listed phases,
   * each constraint applying only when its value is non-empty.
   */
  predicate Matches(q: ListQuery, d: Document) {
    && (q.search != "" ==> SearchHit(q.search, d))
    && (|q.subjects| > 0 ==> d.subject in q.subjects)
    && (|q.phases| > 0 ==> d.phase in q.phases)
  }

  /** The matching records of a store, in store order. */
  function Matching(store: seq<Document>, q: ListQuery): seq<Document> {
    Seqs.Filter(store, d => Matches(q, d))
  }

  /** The `where` object: each field is set only when its condition is. */
  datatype Where = Where(anyOf: Option<string>, subjectIn: Option<seq<string>>, phaseIn: Option<seq<string>>)

  /** How the store reads a `where` object. */
  predicate Satisfies(w: Where, d: Document) {
    && (w.anyOf.Some? ==> SearchHit(w.anyOf.value, d))
    && (w.subjectIn.Some? ==> d.subject in w.subjectIn.value)
    && (w.phaseIn.Some? ==> d.phase in w.phaseIn.value)
  }

  /** Builds the `where` object by conditional assignment, as the handler does. */
  method BuildWhere(q: ListQuery) returns (w: Where)
    ensures forall d :: Satisfies(w, d) <==> Matches(q, d)
    ensures w.anyOf.Some? <==> q.search != ""
    ensures w.subjectIn.Some? <==> |q.subjects| > 0
    ensures w.phaseIn.Some? <==> |q.phases| > 0
  {
    w := Where(None, None, None);
    if q.search != "" {
      w := w.(anyOf := Some(q.search));
    }
    if |q.subjects| > 0 {
      w := w.(subjectIn := Some(q.subjects));
    }
    if |q.phases| > 0 {
      w := w.(phaseIn := Some(q.phases));
    }
  }

  /** The handler's outcome: a page of results, or the 500 response. */
  datatype ListResponse = Listed(page: DocumentsPage) | ServerError

  /**
   * `GET /api/documents` against a store ordered newest first. The store rejects a
   * negative `skip` or `take`, which the handler reports as a server error.
   */
  method List(store: seq<Document>, query: DocumentsQuery) returns (r: ListResponse)
    ensures var q := DecodeQuery(query);
      var offset := Paging.Offset(q.page, q.limit);
      && (r.Listed? <==> offset >= 0 && q.limit >= 0)
      && (r.Listed? ==>
        && r.page.totalDocuments == |Matching(store, q)|
        && r.page.offset == offset
        && r.page.limit == q.limit
        && r.page.documents == Paging.Window(Matching(store, q), offset, q.limit))
  {
    var q := DecodeQuery(query);
    var offset := Paging.Offset(q.page, q.limit);
    var where := BuildWhere(q);
    var matches := Seqs.Filter(store, d => Satisfies(where, d));
    Seqs.FilterCongruent(store, d => Satisfies(where, d), d => Matches(q, d));
    var total := |matches|;
    if offset < 0 || q.limit < 0 {
      return ServerError;
    }
    r := Listed(DocumentsPage(total, offset, q.limit, Paging.Window(matches, offset, q.limit)));
  }

  /** An empty search text, subject list and phase list let every record through. */
  lemma EmptyFiltersMatchAll(store: seq<Document>, q: ListQuery)
    requires q.search == "" && q.subjects == [] && q.phases == []
    ensures Matching(store, q) == store
  {
    Seqs.FilterAll(store, d => Matches(q, d));
  }

  /**
   * A record is listed exactly when it passes every constraint: the search text
   * in one of its four searched fields, its subject and its phase in the non-empty
   * lists.
   */
  lemma MatchingMembership(store: seq<Document>, q: ListQuery, d: Document)
    ensures d in Matching(store, q) <==>
      && d in store
      && (q.search == "" || SearchHit(q.search, d))
      && (q.subjects == [] || d.subject in q.subjects)
      && (q.phases == [] || d.phase in q.phases)
  {
    Seqs.FilterMembership(store, d => Matches(q, d), d);
  }

  /** A search text that is a substring of a searched field, in any letter case, finds the record. */
  lemma SearchFindsSubstring(d: Document, prefix: string, search: string, suffix: string)
    requires var text := Text.Lower(prefix + search + suffix);
             || Text.Lower(d.teacherName) == text
             || Text.Lower(d.subject) == text
             || Text.Lower(d.phase) == text
             || Text.Lower(d.academicYear) == text
    ensures SearchHit(search, d)
  {
    Text.LowerConcat(prefix, search);
    Text.LowerConcat(prefix + search, suffix);
    Text.ContainsSelf(search);
    Text.ContainsInfix(Text.Lower(prefix), Text.Lower(search), Text.Lower(suffix), Text.Lower(search));
  }

  /**
   * The page holds `min(limit, max(0, total - offset))` records, all matches, in
   * the store's order starting at the offset.
   */
  lemma PageSize(store: seq<Document>, q: ListQuery)
    requires q.page >= 1 && q.limit >= 0
    ensures var offset := Paging.Offset(q.page, q.limit);
      var n := |Matching(store, q)|;
      |Paging.Window(Matching(store, q), offset, q.limit)| ==
        Paging.Min(q.limit, if offset <= n then n - offset else 0)
  {
    Paging.OffsetIsWholePages(q.page, q.limit);
  }

  /** The reported total depends on the filters only, never on the page asked for. */
  lemma TotalIgnoresPaging(store: seq<Document>, q1: ListQuery, q2: ListQuery)
    requires q1.search == q2.search && q1.subjects == q2.subjects && q1.phases == q2.phases
    ensures |Matching(store, q1)| == |Matching(store, q2)|
  {
    assert forall d :: Matches(q1, d) == Matches(q2, d);
    Seqs.FilterCongruent(store, d => Matches(q1, d), d => Matches(q2, d));
  }

  /** The JSON body of `POST /api/documents`; any field may be missing. */
  datatype CreateBody = CreateBody(
    subject: Option<string>,
    teacherName: Option<string>,
    phase: Option<string>,
    academicYear: Option<string>,
    attachmentUrl: Option<string>)

  predicate HasRequiredFields(body: CreateBody) {
    Truthy(body.subject) && Truthy(body.teacherName) && Truthy(body.phase) && Truthy(body.academicYear)
  }

  datatype CreateResponse = MissingFields | Created(document: Document)

  function Status(r: CreateResponse): int {
    if r.MissingFields? then 400 else 201
  }

  /**
   * `POST /api/documents` on a store ordered newest first; `newId` is the id the
   * database assigns. A body without one of the four required fields is refused
   * with 400 and the store is left as it was.
   */
  function Create(store: seq<Document>, body: CreateBody, newId: int): (r: (CreateResponse, seq<Document>))
    ensures Status(r.0) == 400 <==> !HasRequiredFields(body)
    ensures Status(r.0) == 400 ==> r.0 == MissingFields && r.1 == store
    ensures Status(r.0) == 201 ==> r.0.Created? && r.1 == [r.0.document] + store
    ensures r.0.Created? ==>
      && r.0.document.id == newId
      && r.0.document.subject == body.subject.value
      && r.0.document.teacherName == body.teacherName.value
      && r.0.document.phase == body.phase.value
      && r.0.document.academicYear == body.academicYear.value
      && r.0.document.attachmentUrl == (if Truthy(body.attachmentUrl) then body.attachmentUrl.value else "")
  {
    if !HasRequiredFields(body) then (MissingFields, store)
    else
      var d := Document(newId, body.subject.value, body.teacherName.value, body.phase.value,
                        body.academicYear.value, if Truthy(body.attachmentUrl) then body.attachmentUrl.value else "");
      (Created(d), [d] + store)
  }

  /**
   * After a successful create, a list request sees the new record first when it
   * matches the request, and the older matches after it in their old order.
   */
  lemma CreatedIsListedFirst(store: seq<Document>, body: CreateBody, newId: int, q: ListQuery)
    requires HasRequiredFields(body)
    ensures var (resp, store') := Create(store, body, newId);
      Matching(store', q) == (if Matches(q, resp.document) then [resp.document] else []) + Matching(store, q)
  {
    var (resp, store') := Create(store, body, newId);
    Seqs.FilterConcat([resp.document], store, d => Matches(q, d));
  }
}
