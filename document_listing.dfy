/**
 * The server-rendered document listing: it reads the page's own query values
 * (`page`, `name`, `perPage`, `subject`, `phase`), turns them into the filters it
 * passes to `getDocuments`, and hands the reported total to the table.
 */
module DocumentListing {
  import opened Wrappers
  import opened DocumentModel
  import opened DocumentsApi
  import Text

  /**
   * The listing page's query values as the search-parameter cache returns them;
   * the cache's own parsing and defaults are not part of this model.
   */
  datatype ListingParams = ListingParams(
    page: int,
    name: Option<string>,
    perPage: int,
    subject: Option<string>,
    phase: Option<string>)

  /**
   * The `filters` object: page and limit always; `search` only for a non-empty
   * name; `subjects` and `phases` only for non-empty values, split on `.` with
   * empty parts kept.
   */
  function ListingFilters(p: ListingParams): (f: DocumentFilters)
    ensures f.page == Some(p.page) && f.limit == Some(p.perPage)
    ensures f.search.Some? <==> Truthy(p.name)
    ensures f.search.Some? ==> f.search == p.name
    ensures f.subjects.Some? <==> Truthy(p.subject)
    ensures f.phases.Some? <==> Truthy(p.phase)
    ensures f.subjects.Some? ==> Text.Join(f.subjects.value, '.') == p.subject.value
    ensures f.phases.Some? ==> Text.Join(f.phases.value, '.') == p.phase.value
    ensures f.subjects.Some? ==> forall i :: 0 <= i < |f.subjects.value| ==> '.' !in f.subjects.value[i]
    ensures f.phases.Some? ==> forall i :: 0 <= i < |f.phases.value| ==> '.' !in f.phases.value[i]
  {
    Text.JoinSplit(p.subject.GetOr(""), '.');
    Text.JoinSplit(p.phase.GetOr(""), '.');
    DocumentFilters(
      Some(p.page),
      Some(p.perPage),
      if Truthy(p.name) then p.name else None,
      if Truthy(p.subject) then Some(Text.Split(p.subject.value, '.')) else None,
      if Truthy(p.phase) then Some(Text.Split(p.phase.value, '.')) else None)
  }

  /** What the listing hands to the table: the page's rows and the reported total. */
  datatype TableProps = TableProps(data: seq<Document>, totalItems: nat)

  function ListingTable(response: DocumentsPage): (t: TableProps)
    ensures t.totalItems == response.totalDocuments && t.data == response.documents
  {
    TableProps(response.documents, response.totalDocuments)
  }

  /**
   * Splitting a raw list on `.` here and joining it with `.` in `getDocuments`
   * sends exactly the raw value; an absent or empty value is sent as `""`.
   */
  lemma ListingSendsRawLists(p: ListingParams)
    ensures GetDocumentsQuery(ListingFilters(p)).subjects == Some(p.subject.GetOr(""))
    ensures GetDocumentsQuery(ListingFilters(p)).phases == Some(p.phase.GetOr(""))
    ensures GetDocumentsQuery(ListingFilters(p)).search == Some(p.name.GetOr(""))
    ensures GetDocumentsQuery(ListingFilters(p)).page == Some(p.page)
    ensures GetDocumentsQuery(ListingFilters(p)).limit == Some(p.perPage)
  {
  }

  /** Empty parts are kept at this layer: `a..b` becomes three subjects. */
  lemma ListingKeepsEmptyParts()
    ensures ListingFilters(ListingParams(1, None, 10, Some("a..b"), None)).subjects == Some(["a", "", "b"])
  {
    assert "a..b" == "a" + ['.'] + ("" + ['.'] + "b");
    Text.SplitConcat("a", "" + ['.'] + "b", '.');
    Text.SplitConcat("", "b", '.');
    Text.SplitWithoutSep("a", '.');
    Text.SplitWithoutSep("b", '.');
    assert Text.Split("", '.') == [""];
    assert Text.Split("a..b", '.') == ["a"] + ([""] + ["b"]);
    assert ["a"] + ([""] + ["b"]) == ["a", "", "b"];
    var p := ListingParams(1, None, 10, Some("a..b"), None);
    assert Truthy(p.subject);
    assert ListingFilters(p).subjects == Some(Text.Split("a..b", '.'));
  }
}
