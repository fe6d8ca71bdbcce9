/**
 * The document form: the schema its values must satisfy, the values it starts
 * from, and the update-or-create call a valid submission makes, with the loading
 * flag raised for the duration of that call.
 */
module DocumentForm {
  import opened Wrappers
  import Decimal
  import opened DocumentModel
  import DocumentsRoute

  const MaxFileSize: int := 5000000
  /** The bound the file uploader itself is given: 5 MiB. */
  const UploaderMaxSize: int := 5 * 1024 * 1024

  const AcceptedFileTypes: seq<string> := [
    "application/pdf",
    "application/msword",
    "application/vnd.openxmlformats-officedocument.wordprocessingml.document",
    "text/plain"
  ]

  datatype FileInfo = FileInfo(size: int, mimeType: string)

  /** The form's values; `attachment` is the uploader's file list, absent when never touched. */
  datatype FormValues = FormValues(
    attachment: Option<seq<FileInfo>>,
    subject: string,
    teacherName: string,
    phase: string,
    academicYear: string)

  /** No attachment to check: absent, or an empty list. */
  predicate NoFiles(attachment: Option<seq<FileInfo>>) {
    attachment.None? || |attachment.value| == 0
  }

  /** The size refinement: only the first file is looked at. */
  predicate SizeOk(attachment: Option<seq<FileInfo>>) {
    NoFiles(attachment) || attachment.value[0].size <= MaxFileSize
  }

  /** The type refinement: only the first file is looked at. */
  predicate TypeOk(attachment: Option<seq<FileInfo>>) {
    NoFiles(attachment) || attachment.value[0].mimeType in AcceptedFileTypes
  }

  /** `formSchema`: the two attachment refinements and the four minimum lengths. */
  predicate SchemaValid(v: FormValues) {
    && SizeOk(v.attachment)
    && TypeOk(v.attachment)
    && |v.subject| >= 2
    && |v.teacherName| >= 2
    && |v.phase| >= 1
    && |v.academicYear| >= 1
  }

  /** Files after the first are never checked. */
  lemma OnlyFirstFileChecked(first: FileInfo, rest: seq<FileInfo>, rest': seq<FileInfo>)
    ensures SizeOk(Some([first] + rest)) == SizeOk(Some([first] + rest'))
    ensures TypeOk(Some([first] + rest)) == TypeOk(Some([first] + rest'))
    ensures SizeOk(Some([first] + rest)) <==> first.size <= MaxFileSize
  {
  }

  /** A single file passes the attachment checks exactly when it is small enough and of an accepted type. */
  lemma SingleFileIff(f: FileInfo)
    ensures SizeOk(Some([f])) && TypeOk(Some([f])) <==>
      f.size <= 5000000 && (f.mimeType == "application/pdf" || f.mimeType == "application/msword"
        || f.mimeType == "application/vnd.openxmlformats-officedocument.wordprocessingml.document"
        || f.mimeType == "text/plain")
  {
  }

  /**
   * The schema's size bound is stricter than the uploader's: every file the schema
   * accepts the uploader accepts too, and a PDF one byte over 5,000,000 is taken by
   * the uploader but refused by the schema.
   */
  lemma SchemaStricterThanUploader(f: FileInfo)
    ensures SizeOk(Some([f])) ==> f.size <= UploaderMaxSize
    ensures var big := FileInfo(MaxFileSize + 1, "application/pdf");
      big.size <= UploaderMaxSize && !SizeOk(Some([big])) && TypeOk(Some([big]))
  {
  }

  /** `defaultValues`: the record's four fields when editing, empty strings otherwise. */
  function DefaultValues(initialData: Option<Document>): (v: FormValues)
    ensures v.attachment.None?
    ensures initialData.Some? ==>
      && v.subject == initialData.value.subject
      && v.teacherName == initialData.value.teacherName
      && v.phase == initialData.value.phase
      && v.academicYear == initialData.value.academicYear
    ensures initialData.None? ==> v.subject == v.teacherName == v.phase == v.academicYear == ""
  {
    var Or := (s: string, t: string) => if s != "" then s else t;
    match initialData
    case None => FormValues(None, "", "", "", "")
    case Some(d) => FormValues(None, Or(d.subject, ""), Or(d.teacherName, ""), Or(d.phase, ""), Or(d.academicYear, ""))
  }

  /** A new form must be filled in before it can be submitted. */
  lemma NewFormIsInvalid()
    ensures !SchemaValid(DefaultValues(None))
  {
  }

  /** An edited record's own values pass the schema exactly when its fields are long enough. */
  lemma EditedDefaultsValidIff(d: Document)
    ensures SchemaValid(DefaultValues(Some(d))) <==>
      |d.subject| >= 2 && |d.teacherName| >= 2 && |d.phase| >= 1 && |d.academicYear| >= 1
  {
  }

  /** The sample URL used when there is no attachment URL to keep; `pick` is the random number from 1 to 100. */
  function PlaceholderUrl(pick: nat): (url: string)
    requires 1 <= pick <= 100
    ensures |url| > 0
  {
    "https://example.com/documents/sample-" + Decimal.Show(pick) + ".pdf"
  }

  /** `documentData`. */
  datatype DocumentData = DocumentData(
    subject: string,
    teacherName: string,
    phase: string,
    academicYear: string,
    attachmentUrl: string)

  datatype SubmitCall = Update(id: int, data: DocumentData) | Create(data: DocumentData)

  /**
   * The call `onSubmit` makes: update of the record being edited, or create. The
   * four values are sent as entered; an existing non-empty attachment URL is kept,
   * otherwise the sample URL is sent.
   */
  function Call(initialData: Option<Document>, values: FormValues, pick: nat): (c: SubmitCall)
    requires 1 <= pick <= 100
    ensures c.Update? <==> initialData.Some?
    ensures c.Update? ==> c.id == initialData.value.id
    ensures c.data.subject == values.subject && c.data.teacherName == values.teacherName
    ensures c.data.phase == values.phase && c.data.academicYear == values.academicYear
    ensures initialData.Some? && initialData.value.attachmentUrl != "" ==>
      c.data.attachmentUrl == initialData.value.attachmentUrl
    ensures !(initialData.Some? && initialData.value.attachmentUrl != "") ==>
      c.data.attachmentUrl == PlaceholderUrl(pick)
  {
    var url := if initialData.Some? && initialData.value.attachmentUrl != "" then initialData.value.attachmentUrl
               else PlaceholderUrl(pick);
    var data := DocumentData(values.subject, values.teacherName, values.phase, values.academicYear, url);
    if initialData.Some? then Update(initialData.value.id, data) else Create(data)
  }

  /** The call always carries a non-empty attachment URL. */
  lemma CallHasAttachmentUrl(initialData: Option<Document>, values: FormValues, pick: nat)
    requires 1 <= pick <= 100
    ensures Call(initialData, values, pick).data.attachmentUrl != ""
  {
  }

  /**
   * A valid new document is accepted by the documents route, which stores the
   * values and the attachment URL exactly as sent.
   */
  lemma ValidCreateIsAccepted(values: FormValues, pick: nat, store: seq<Document>, newId: int)
    requires 1 <= pick <= 100 && SchemaValid(values)
    ensures var d := Call(None, values, pick).data;
      var body := DocumentsRoute.CreateBody(Some(d.subject), Some(d.teacherName), Some(d.phase),
                                            Some(d.academicYear), Some(d.attachmentUrl));
      var (resp, _) := DocumentsRoute.Create(store, body, newId);
      && resp.Created?
      && resp.document == Document(newId, values.subject, values.teacherName, values.phase,
                                   values.academicYear, PlaceholderUrl(pick))
  {
    assert PlaceholderUrl(pick) != "";
  }

  /** What a submit did: stopped by the schema, or the call made and its outcome. */
  datatype Submission = Invalid | Submitted(call: SubmitCall, loadingWhilePending: bool, saved: bool)

  class DocumentFormPage {
    const initialData: Option<Document>
    var isLoading: bool

    constructor (initialData: Option<Document>)
      ensures this.initialData == initialData && !isLoading
    {
      this.initialData := initialData;
      isLoading := false;
    }

    predicate IsEditing() {
      initialData.Some?
    }

    /**
     * The form's submit: values that fail the schema never reach `onSubmit`;
     * otherwise the call is made with `isLoading` raised, and `isLoading` is lowered
     * afterwards whether the call succeeded or failed. `pick` is the random number
     * and `callSucceeds` the call's outcome.
     */
    method Submit(values: FormValues, pick: nat, callSucceeds: bool) returns (s: Submission)
      requires 1 <= pick <= 100
      modifies this
      ensures s.Invalid? <==> !SchemaValid(values)
      ensures s.Invalid? ==> isLoading == old(isLoading)
      ensures s.Submitted? ==>
        && s.call == Call(initialData, values, pick)
        && (s.call.Update? <==> IsEditing())
        && s.loadingWhilePending && s.saved == callSucceeds && !isLoading
    {
      if !SchemaValid(values) {
        return Invalid;
      }
      isLoading := true;
      var pending := isLoading;
      var call := Call(initialData, values, pick);
      isLoading := false;
      s := Submitted(call, pending, callSucceeds);
    }
  }
}
