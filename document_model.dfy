/**
 * The document record and the query string that carries a document list request
 * from the client to the route handler. Timestamps are not modelled: a store is a
 * sequence of records ordered newest first, which is the order the list query asks
 * the database for.
 */
module DocumentModel {
  import opened Wrappers

  datatype Document = Document(
    id: int,
    subject: string,
    teacherName: string,
    phase: string,
    academicYear: string,
    attachmentUrl: string)

  /**
   * The URL search parameters of `GET /api/documents`. `None` is a parameter that
   * is not in the URL. Page and limit are carried as the integers they encode.
   */
  datatype DocumentsQuery = DocumentsQuery(
    page: Option<int>,
    limit: Option<int>,
    search: Option<string>,
    subjects: Option<string>,
    phases: Option<string>)

  /** The JSON body of a successful list response. */
  datatype DocumentsPage = DocumentsPage(
    totalDocuments: nat,
    offset: int,
    limit: int,
    documents: seq<Document>)
}
