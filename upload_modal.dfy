/** The upload dialog: picking a file, the submit guard, building the new document record, and
    the two flags that bracket the summary request and the simulated network delay. */
module UploadModal {
  import opened Wrappers
  import opened Seqs
  import opened Text
  import opened Types
  import ProfessorDashboard

  /** A picked file; only its name reaches the record. */
  datatype File = File(name: string)

  /** The record `handleSubmit` builds. `summary` is what the summarizer returned; `id`,
      `uploadDate` and `fileUrl` stand for `Date.now()`, today's date and the object URL. */
  function NewDocument(user: UserProfile, file: File, subject: string, docType: DocType, summary: string,
                       id: string, uploadDate: string, fileUrl: string): (r: Document)
    ensures r.status == Approved <==> user.role == Professor
    ensures r.status == Submitted <==> user.role == Student
    ensures r.fileName == file.name && r.subject == subject && r.docType == docType
    ensures r.uploaderId == user.id && r.uploaderName == user.name && r.uploaderRole == user.role
    ensures Truthy(user.year) ==> r.year == user.year.value
    ensures !Truthy(user.year) ==> r.year == "N/A"
    ensures Truthy(user.branch) ==> r.branch == user.branch.value
    ensures !Truthy(user.branch) ==> r.branch == "N/A"
    ensures r.aiSummary == Some(summary) && r.remarks == None
    ensures r.year != "" && r.branch != ""
  {
    Document(id, file.name, subject, docType, OrElse(user.year, "N/A"), OrElse(user.branch, "N/A"), uploadDate,
      user.id, user.name, user.role, if user.role == Professor then Approved else Submitted, fileUrl,
      None, Some(summary))
  }

  /** Where a new upload goes: a student's upload joins the professor's review queue (with an
      empty search) and is offered for review; a professor's is published approved, never
      queued and never offered for review. */
  lemma UploadRouting(user: UserProfile, file: File, subject: string, docType: DocType, summary: string,
                      id: string, uploadDate: string, fileUrl: string, docs: seq<Document>)
    ensures var d := NewDocument(user, file, subject, docType, summary, id, uploadDate, fileUrl);
      user.role == Student ==> d in ProfessorDashboard.FilteredSubmissions([d] + docs, "") && ProfessorDashboard.ReviewOffered(d)
    ensures var d := NewDocument(user, file, subject, docType, summary, id, uploadDate, fileUrl);
      user.role == Professor ==> d !in ProfessorDashboard.Submissions([d] + docs) && !ProfessorDashboard.ReviewOffered(d)
  {
    var d := NewDocument(user, file, subject, docType, summary, id, uploadDate, fileUrl);
    ProfessorDashboard.FilteredSubmissionsSpec([d] + docs, "");
    FilterMembers([d] + docs, ProfessorDashboard.IsStudentUpload);
    EmptyTermMatches(d.fileName);
    assert ([d] + docs)[0] == d;
  }

  /** The dialog between steps: nothing in flight, waiting for the summarizer with the values
      captured when the form was submitted, or waiting out the delay with the record built. */
  datatype Phase =
    | Idle
    | AwaitingSummary(file: File, subject: string, docType: DocType)
    | AwaitingDelay(doc: Document)

  /** The dialog's state cells and the continuation of `handleSubmit` in flight. */
  class UploadForm {
    const user: UserProfile
    var file: Option<File>
    var subject: string
    var docType: DocType
    var isUploading: bool
    var aiAnalyzing: bool
    var phase: Phase

    /** The flags tell exactly where the submission is: `aiAnalyzing` while the summary is
        awaited, `isUploading` from submission until the record is handed over. */
    ghost predicate Valid()
      reads this
    {
      && (aiAnalyzing <==> phase.AwaitingSummary?)
      && (isUploading <==> !phase.Idle?)
    }

    constructor (user: UserProfile)
      ensures Valid()
      ensures this.user == user && file == None && subject == "" && docType == Notes
      ensures !isUploading && !aiAnalyzing && phase == Idle
    {
      this.user := user;
      file := None;
      subject := "";
      docType := Notes;
      isUploading := false;
      aiAnalyzing := false;
      phase := Idle;
    }

    /** The submit button's `disabled` condition. */
    predicate SubmitDisabled()
      reads this
    {
      file.None? || subject == "" || isUploading
    }

    /** From the moment a submission starts until its record is handed over, the button stays
        disabled: no second `handleSubmit` can begin while one is in flight. */
    lemma DisabledWhileInFlight()
      requires Valid() && !phase.Idle?
      ensures SubmitDisabled()
    {
    }

    /** A click on the enabled button meets `BeginSubmit`'s guard and goes past its early
        return: the summary is requested. */
    lemma EnabledClickSubmits()
      requires Valid() && !SubmitDisabled()
      ensures !isUploading && phase.Idle?
      ensures file.Some? && subject != ""
    {
    }

    /** `handleFileChange`: the selection changes only when the input supplies a first file. */
    method HandleFileChange(files: Option<seq<File>>)
      requires Valid()
      modifies this
      ensures Valid()
      ensures files.Some? && |files.value| > 0 ==> file == Some(files.value[0])
      ensures !(files.Some? && |files.value| > 0) ==> file == old(file)
      ensures subject == old(subject) && docType == old(docType)
      ensures isUploading == old(isUploading) && aiAnalyzing == old(aiAnalyzing) && phase == old(phase)
    {
      if files.Some? && |files.value| > 0 {
        file := Some(files.value[0]);
      }
    }

    /** Typing in the subject box. */
    method SetSubject(s: string)
      requires Valid()
      modifies this
      ensures Valid()
      ensures subject == s
      ensures file == old(file) && docType == old(docType)
      ensures isUploading == old(isUploading) && aiAnalyzing == old(aiAnalyzing) && phase == old(phase)
    {
      subject := s;
    }

    /** Choosing the document type. */
    method SetType(t: DocType)
      requires Valid()
      modifies this
      ensures Valid()
      ensures docType == t
      ensures file == old(file) && subject == old(subject)
      ensures isUploading == old(isUploading) && aiAnalyzing == old(aiAnalyzing) && phase == old(phase)
    {
      docType := t;
    }

    /** `handleSubmit` up to the summary request. Without a file or a subject nothing happens;
        otherwise both flags are set before the summary is requested, and the file, subject and
        type are captured. The button is disabled while uploading, so no submission starts then. */
    method BeginSubmit() returns (requested: bool)
      requires Valid() && !isUploading
      modifies this
      ensures Valid()
      ensures requested <==> old(file).Some? && old(subject) != ""
      ensures requested ==> SubmitDisabled()
      ensures !requested ==> isUploading == old(isUploading) && aiAnalyzing == old(aiAnalyzing) && phase == old(phase)
      ensures requested ==> isUploading && aiAnalyzing && phase == AwaitingSummary(old(file).value, old(subject), old(docType))
      ensures file == old(file) && subject == old(subject) && docType == old(docType)
    {
      if file.None? || subject == "" {
        return false;
      }
      isUploading := true;
      aiAnalyzing := true;
      phase := AwaitingSummary(file.value, subject, docType);
      requested := true;
    }

    /** The summary has come back: `aiAnalyzing` clears, `isUploading` stays, and the record is
        built from the captured values, carrying the summary exactly as returned. */
    method SummaryReturned(summary: string, id: string, uploadDate: string, fileUrl: string)
      requires Valid() && phase.AwaitingSummary?
      modifies this
      ensures Valid()
      ensures !aiAnalyzing && isUploading && SubmitDisabled()
      ensures phase == AwaitingDelay(NewDocument(user, old(phase).file, old(phase).subject, old(phase).docType,
                                                  summary, id, uploadDate, fileUrl))
      ensures file == old(file) && subject == old(subject) && docType == old(docType)
    {
      aiAnalyzing := false;
      phase := AwaitingDelay(NewDocument(user, phase.file, phase.subject, phase.docType, summary, id, uploadDate, fileUrl));
    }

    /** The delay has elapsed: the record is handed to `onUpload` (returned here) and only then
        is `isUploading` cleared. */
    method DelayElapsed() returns (uploaded: Document)
      requires Valid() && phase.AwaitingDelay?
      modifies this
      ensures Valid()
      ensures uploaded == old(phase).doc
      ensures !isUploading && !aiAnalyzing && phase == Idle
      ensures file == old(file) && subject == old(subject) && docType == old(docType)
    {
      uploaded := phase.doc;
      isUploading := false;
      phase := Idle;
    }

    /** The whole of `handleSubmit` run to its end, the summarizer being any function of the file
        name, the subject and the type's text: without a file or a subject nothing is uploaded;
        otherwise exactly the record built from the form's values and the summary is uploaded,
        and both flags are clear again. */
    method HandleSubmit(summarize: (string, string, string) -> string, id: string, uploadDate: string, fileUrl: string)
      returns (uploaded: Option<Document>)
      requires Valid() && !isUploading
      modifies this
      ensures Valid() && !isUploading && !aiAnalyzing && phase == Idle
      ensures old(file).None? || old(subject) == "" ==> uploaded == None
      ensures old(file).Some? && old(subject) != "" ==>
        uploaded == Some(NewDocument(user, old(file).value, old(subject), old(docType),
                                     summarize(old(file).value.name, old(subject), TypeText(old(docType))),
                                     id, uploadDate, fileUrl))
      ensures file == old(file) && subject == old(subject) && docType == old(docType)
    {
      var requested := BeginSubmit();
      if !requested {
        return None;
      }
      var summary := summarize(phase.file.name, phase.subject, TypeText(phase.docType));
      SummaryReturned(summary, id, uploadDate, fileUrl);
      var doc := DelayElapsed();
      uploaded := Some(doc);
    }
  }
}
