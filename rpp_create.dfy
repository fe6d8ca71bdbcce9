/**
 * The page that creates an RPP (lesson plan): a form record edited one field at a
 * time, a guard that refuses submission while a required field is empty, and a
 * loading flag raised for the duration of the create call.
 */
module RppCreate {
  import Decimal
  import DocumentsRoute
  import opened Wrappers

  /** `formData`: the document fields plus the page's own `assessment` and `sessionCount`. */
  datatype RppForm = RppForm(
    subject: string,
    teacherName: string,
    phase: string,
    semester: string,
    academicYear: string,
    attachmentUrl: string,
    assessment: string,
    sessionCount: string)

  /** The keys `handleInputChange` accepts. */
  datatype Field = Subject | TeacherName | Phase | Semester | AcademicYear | AttachmentUrl | Assessment | SessionCount

  function Get(form: RppForm, field: Field): string {
    match field
    case Subject => form.subject
    case TeacherName => form.teacherName
    case Phase => form.phase
    case Semester => form.semester
    case AcademicYear => form.academicYear
    case AttachmentUrl => form.attachmentUrl
    case Assessment => form.assessment
    case SessionCount => form.sessionCount
  }

  /** `{ ...prev, [field]: value }`: the named field takes the value and every other field keeps its own. */
  function Set(form: RppForm, field: Field, value: string): (r: RppForm)
    ensures Get(r, field) == value
    ensures forall g :: g != field ==> Get(r, g) == Get(form, g)
  {
    match field
    case Subject => form.(subject := value)
    case TeacherName => form.(teacherName := value)
    case Phase => form.(phase := value)
    case Semester => form.(semester := value)
    case AcademicYear => form.(academicYear := value)
    case AttachmentUrl => form.(attachmentUrl := value)
    case Assessment => form.(assessment := value)
    case SessionCount => form.(sessionCount := value)
  }

  /** A record is determined by its fields. */
  lemma FieldsDetermineForm(a: RppForm, b: RppForm)
    requires forall g :: Get(a, g) == Get(b, g)
    ensures a == b
  {
    assert Get(a, Subject) == Get(b, Subject) && Get(a, TeacherName) == Get(b, TeacherName);
    assert Get(a, Phase) == Get(b, Phase) && Get(a, Semester) == Get(b, Semester);
    assert Get(a, AcademicYear) == Get(b, AcademicYear) && Get(a, AttachmentUrl) == Get(b, AttachmentUrl);
    assert Get(a, Assessment) == Get(b, Assessment) && Get(a, SessionCount) == Get(b, SessionCount);
  }

  /** Writing a field's current value back changes nothing; a second write to the same field overrides the first. */
  lemma SetLaws(form: RppForm, field: Field, v: string, w: string)
    ensures Set(form, field, Get(form, field)) == form
    ensures Set(Set(form, field, v), field, w) == Set(form, field, w)
  {
    FieldsDetermineForm(Set(form, field, Get(form, field)), form);
    FieldsDetermineForm(Set(Set(form, field, v), field, w), Set(form, field, w));
  }

  /** Writes to two different fields commute. */
  lemma SetCommutes(form: RppForm, f: Field, g: Field, v: string, w: string)
    requires f != g
    ensures Set(Set(form, f, v), g, w) == Set(Set(form, g, w), f, v)
  {
    FieldsDetermineForm(Set(Set(form, f, v), g, w), Set(Set(form, g, w), f, v));
  }

  const DefaultSessionCount: nat := 12
  const MinSessions: nat := 6
  const MaxSessions: nat := 24

  const InitialForm: RppForm := RppForm("", "", "", "", "", "", "", Decimal.Show(DefaultSessionCount))

  /** The initial form is empty except for twelve sessions. */
  lemma InitialFormValues(field: Field)
    ensures Get(InitialForm, field) == (if field == SessionCount then "12" else "")
  {
  }

  /** The six fields the submit guard checks. */
  predicate Required(field: Field) {
    field != AttachmentUrl && field != SessionCount
  }

  /** The guard of `handleSubmit`: some required field is empty. */
  predicate MissingRequired(form: RppForm) {
    || form.subject == "" || form.teacherName == "" || form.phase == ""
    || form.semester == "" || form.academicYear == "" || form.assessment == ""
  }

  /** Submission is refused exactly when one of the six required fields is empty. */
  lemma MissingRequiredIff(form: RppForm)
    ensures MissingRequired(form) <==> exists g :: Required(g) && Get(form, g) == ""
  {
    if MissingRequired(form) {
      if form.subject == "" { assert Required(Subject) && Get(form, Subject) == ""; }
      else if form.teacherName == "" { assert Required(TeacherName) && Get(form, TeacherName) == ""; }
      else if form.phase == "" { assert Required(Phase) && Get(form, Phase) == ""; }
      else if form.semester == "" { assert Required(Semester) && Get(form, Semester) == ""; }
      else if form.academicYear == "" { assert Required(AcademicYear) && Get(form, AcademicYear) == ""; }
      else { assert Required(Assessment) && Get(form, Assessment) == ""; }
    }
  }

  /** The attachment and the session count play no part in the guard. */
  lemma OptionalFieldsNotRequired(form: RppForm, field: Field, value: string)
    requires !Required(field)
    ensures MissingRequired(Set(form, field, value)) == MissingRequired(form)
  {
  }

  /** The slider's value as stored in the form: its decimal string, one or two digits. */
  function SliderText(n: nat): (s: string)
    requires MinSessions <= n <= MaxSessions
    ensures 1 <= |s| <= 2 && (forall i :: 0 <= i < |s| ==> Decimal.IsDigit(s[i]))
    ensures s[0] != '0'
    ensures Decimal.Read(s) == n
  {
    Decimal.ReadShow(n);
    Decimal.Show(n)
  }

  /** What the form sends, as the documents route reads it. */
  function AsCreateBody(form: RppForm): DocumentsRoute.CreateBody {
    DocumentsRoute.CreateBody(Some(form.subject), Some(form.teacherName), Some(form.phase),
                              Some(form.academicYear), Some(form.attachmentUrl))
  }

  /**
   * A form that passes the page's guard also passes the route's check, and the
   * stored record takes the form's fields, with no attachment URL when none was chosen.
   */
  lemma GuardedFormIsAccepted(form: RppForm, store: seq<DocumentsRoute.DocumentModel.Document>, newId: int)
    requires !MissingRequired(form)
    ensures DocumentsRoute.HasRequiredFields(AsCreateBody(form))
    ensures var (resp, _) := DocumentsRoute.Create(store, AsCreateBody(form), newId);
      && resp.Created?
      && resp.document.subject == form.subject
      && resp.document.teacherName == form.teacherName
      && resp.document.phase == form.phase
      && resp.document.academicYear == form.academicYear
      && resp.document.attachmentUrl == form.attachmentUrl
  {
  }

  /** What a submit did: refused by the guard, or sent with the create call's outcome. */
  datatype Submission = Refused | Sent(data: RppForm, loadingWhilePending: bool, saved: bool)

  class CreateRppPage {
    var formData: RppForm
    var loading: bool

    constructor ()
      ensures formData == InitialForm && !loading
    {
      formData := InitialForm;
      loading := false;
    }

    /** `handleInputChange(field, value)`. */
    method HandleInputChange(field: Field, value: string)
      modifies this
      ensures formData == Set(old(formData), field, value)
      ensures loading == old(loading)
    {
      formData := Set(formData, field, value);
    }

    /** The slider, which moves in whole steps between 6 and 24. */
    method OnSessionCountChange(n: nat)
      requires MinSessions <= n <= MaxSessions
      modifies this
      ensures formData == Set(old(formData), SessionCount, SliderText(n))
      ensures loading == old(loading)
    {
      HandleInputChange(SessionCount, Decimal.Show(n));
    }

    /** The file input: a chosen file's object URL becomes the attachment; no file changes nothing. */
    method OnFileChange(objectUrl: Option<string>)
      modifies this
      ensures objectUrl.Some? ==> formData == Set(old(formData), AttachmentUrl, objectUrl.value)
      ensures objectUrl.None? ==> formData == old(formData)
      ensures loading == old(loading)
    {
      if objectUrl.Some? {
        HandleInputChange(AttachmentUrl, objectUrl.value);
      }
    }

    /**
     * `handleSubmit`. `createSucceeds` is the outcome of the create call. A form with
     * an empty required field is refused before any call; otherwise the whole form
     * is sent, `loading` is raised while the call is pending and lowered afterwards
     * whether the call succeeded or failed.
     */
    method HandleSubmit(createSucceeds: bool) returns (s: Submission)
      modifies this
      ensures formData == old(formData)
      ensures s.Refused? <==> MissingRequired(old(formData))
      ensures s.Refused? ==> loading == old(loading)
      ensures s.Sent? ==> s.data == old(formData) && s.loadingWhilePending && s.saved == createSucceeds && !loading
    {
      if MissingRequired(formData) {
        return Refused;
      }
      loading := true;
      var pending := loading;
      var saved := createSucceeds;
      loading := false;
      s := Sent(formData, pending, saved);
    }
  }
}
