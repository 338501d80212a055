/** The record shapes and enumerations shared by every view: users, documents and notifications. */
module Types {
  import opened Wrappers

  datatype UserRole = Student | Professor

  datatype DocStatus = Submitted | Approved | Rejected

  datatype DocType = Assignment | Notes | Research | Syllabus

  /** The string value of each `UserRole` member. */
  function RoleText(r: UserRole): string {
    match r
    case Student => "STUDENT"
    case Professor => "PROFESSOR"
  }

  /** The string value of each `DocStatus` member. */
  function StatusText(s: DocStatus): string {
    match s
    case Submitted => "Submitted"
    case Approved => "Approved"
    case Rejected => "Rejected"
  }

  /** The string value of each `DocType` member. */
  function TypeText(t: DocType): string {
    match t
    case Assignment => "Assignment"
    case Notes => "Notes"
    case Research => "Research Paper"
    case Syllabus => "Syllabus"
  }

  /** A signed-in user; the last three fields are set for students only. */
  datatype UserProfile = UserProfile(
    id: string,
    name: string,
    role: UserRole,
    email: string,
    rollNumber: Option<string>,
    branch: Option<string>,
    year: Option<string>)

  /** An uploaded file with its metadata, its uploader (copied in) and its review state. */
  datatype Document = Document(
    id: string,
    fileName: string,
    subject: string,
    docType: DocType,
    year: string,
    branch: string,
    uploadDate: string,
    uploaderId: string,
    uploaderName: string,
    uploaderRole: UserRole,
    status: DocStatus,
    fileUrl: string,
    remarks: Option<string>,
    aiSummary: Option<string>)

  datatype Notification = Notification(
    id: string,
    title: string,
    message: string,
    date: string,
    read: bool)

  /** JavaScript truthiness of an optional string: present and not empty. */
  predicate Truthy(v: Option<string>) {
    v.Some? && v.value != ""
  }

  /** JavaScript's `v || fallback` on an optional string. */
  function OrElse(v: Option<string>, fallback: string): string {
    if Truthy(v) then v.value else fallback
  }
}
