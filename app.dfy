/** The application shell: the signed-in user, the document list, the notification log, and
    the handlers the views call to change them. */
module App {
  import opened Wrappers
  import opened Seqs
  import opened Text
  import opened Types

  datatype View = DocumentsView | NotificationsView | ProfileView

  /** What `Date.now().toString()` and the formatted local date and time give when a
      notification is created; the caller supplies them. */
  datatype Stamp = Stamp(id: string, date: string)

  const MockStudent := UserProfile("s1", "Alex Johnson", Student, "alex.j@university.edu",
    Some("CS2021-042"), Some("Computer Science"), Some("3rd Year"))

  const MockProfessor := UserProfile("p1", "Dr. Sarah Miller", Professor, "sarah.miller@university.edu",
    None, None, None)

  /** The two documents the list starts with. */
  const InitialDocs := [
    Document("1", "DataStructures_L1.pdf", "Data Structures", Notes, "2nd Year", "CS", "2023-10-15",
      "p1", "Dr. Sarah Miller", Professor, Approved, "https://example.com/file1",
      None, Some("Comprehensive overview of linked lists and stacks.")),
    Document("2", "Cloud_Computing_Proj.docx", "Cloud Computing", Assignment, "4th Year", "IT", "2023-11-01",
      "s1", "Alex Johnson", Student, Submitted, "https://example.com/file2",
      None, None)
  ]

  // ----- the pure parts of the handlers -----

  /** `documents.find(d => d.id === id)`: the first document with that id. */
  function FindById(docs: seq<Document>, id: string): (r: Option<Document>)
    ensures r.Some? <==> exists i :: 0 <= i < |docs| && docs[i].id == id
    ensures r.Some? ==> exists i :: 0 <= i < |docs| && docs[i] == r.value && r.value.id == id &&
                                    (forall j :: 0 <= j < i ==> docs[j].id != id)
    decreases |docs|
  {
    if |docs| == 0 then None
    else if docs[0].id == id then Some(docs[0])
    else
      var r := FindById(docs[1..], id);
      assert forall i :: 0 < i < |docs| ==> docs[i] == docs[1..][i - 1];
      r
  }

  /** `prev.map(d => d.id === id ? { ...d, status, remarks } : d)`: the documents carrying that
      id take the given status and remarks whatever their old status was, and nothing else
      changes: the length, the order, every other document and every other field stay. */
  function WithStatus(docs: seq<Document>, id: string, status: DocStatus, remarks: Option<string>): (r: seq<Document>)
    ensures |r| == |docs|
    ensures forall i :: 0 <= i < |docs| ==> r[i].(status := docs[i].status, remarks := docs[i].remarks) == docs[i]
    ensures forall i :: 0 <= i < |docs| && docs[i].id == id ==> r[i].status == status && r[i].remarks == remarks
    ensures forall i :: 0 <= i < |docs| && docs[i].id != id ==> r[i] == docs[i]
  {
    seq(|docs|, i requires 0 <= i < |docs| =>
      if docs[i].id == id then docs[i].(status := status, remarks := remarks) else docs[i])
  }

  /** Applying the same update twice is applying it once, and a later lookup by that id sees the
      new status and remarks. */
  lemma WithStatusIdempotent(docs: seq<Document>, id: string, status: DocStatus, remarks: Option<string>)
    ensures WithStatus(WithStatus(docs, id, status, remarks), id, status, remarks) == WithStatus(docs, id, status, remarks)
    ensures FindById(docs, id).Some? ==>
      FindById(WithStatus(docs, id, status, remarks), id)
        == Some(FindById(docs, id).value.(status := status, remarks := remarks))
  {
    var r := WithStatus(docs, id, status, remarks);
    assert WithStatus(r, id, status, remarks) == r;
    FindAfterUpdate(docs, id, status, remarks);
  }

  lemma {:induction false} FindAfterUpdate(docs: seq<Document>, id: string, status: DocStatus, remarks: Option<string>)
    ensures FindById(docs, id).Some? ==>
      FindById(WithStatus(docs, id, status, remarks), id)
        == Some(FindById(docs, id).value.(status := status, remarks := remarks))
    decreases |docs|
  {
    if |docs| > 0 {
      var w := WithStatus(docs, id, status, remarks);
      if docs[0].id == id {
        assert w[0] == docs[0].(status := status, remarks := remarks);
      } else {
        assert w[0] == docs[0];
        assert w[1..] == WithStatus(docs[1..], id, status, remarks);
        FindAfterUpdate(docs[1..], id, status, remarks);
      }
    }
  }

  /** The notification a student upload raises. */
  function SubmissionTitle(doc: Document): string {
    "New Submission: " + doc.fileName
  }

  function SubmissionMessage(doc: Document): string {
    doc.uploaderName + " uploaded a document for " + doc.subject + "."
  }

  /** The notification a status change raises. */
  function ReviewTitle(status: DocStatus): string {
    "Document " + StatusText(status)
  }

  function ReviewMessage(fileName: string, status: DocStatus, remarks: Option<string>): string {
    "Your document \"" + fileName + "\" has been " + Lower(StatusText(status))
      + (if Truthy(remarks) then ": " + remarks.value else ".")
  }

  /** Distinct statuses give distinct notification titles. */
  lemma ReviewTitleInjective(a: DocStatus, b: DocStatus)
    ensures ReviewTitle(a) == ReviewTitle(b) <==> a == b
  {
    if a != b {
      var pre := "Document ";
      assert ReviewTitle(a)[|pre|..] == StatusText(a) && ReviewTitle(b)[|pre|..] == StatusText(b);
      assert StatusText(Submitted)[0] == 'S' && StatusText(Approved)[0] == 'A' && StatusText(Rejected)[0] == 'R';
    }
  }

  /** The status message names the file and the lower-cased status, and ends with the remarks
      after a colon when there are any, with a full stop otherwise. */
  lemma ReviewMessageShape(fileName: string, status: DocStatus, remarks: Option<string>)
    ensures Includes(ReviewMessage(fileName, status, remarks), fileName)
    ensures Includes(ReviewMessage(fileName, status, remarks), Lower(StatusText(status)))
    ensures Truthy(remarks) ==> EndsWith(ReviewMessage(fileName, status, remarks), ": " + remarks.value)
    ensures !Truthy(remarks) ==> EndsWith(ReviewMessage(fileName, status, remarks), ".")
  {
    var m := ReviewMessage(fileName, status, remarks);
    var head := "Your document \"";
    var mid := "\" has been ";
    var word := Lower(StatusText(status));
    var tail := if Truthy(remarks) then ": " + remarks.value else ".";
    assert m == head + fileName + mid + word + tail;
    assert m[|head|..|head| + |fileName|] == fileName;
    OccursIncludes(m, fileName, |head|);
    var k := |head| + |fileName| + |mid|;
    assert m[k..k + |word|] == word;
    OccursIncludes(m, word, k);
    assert m[|m| - |tail|..] == tail;
  }

  /** `prev.map(n => ({ ...n, read: true }))`. */
  function MarkedRead(ns: seq<Notification>): seq<Notification> {
    seq(|ns|, i requires 0 <= i < |ns| => ns[i].(read := true))
  }

  predicate IsUnread(n: Notification) {
    !n.read
  }

  /** The badge on the notifications entry: the number of unread notifications. */
  function UnreadCount(ns: seq<Notification>): nat {
    |Filter(ns, IsUnread)|
  }

  /** The badge is zero exactly when every notification is read, and never exceeds the log. */
  lemma UnreadCountZero(ns: seq<Notification>)
    ensures UnreadCount(ns) <= |ns|
    ensures UnreadCount(ns) == 0 <==> forall i :: 0 <= i < |ns| ==> ns[i].read
  {
    if forall i :: 0 <= i < |ns| ==> ns[i].read {
      FilterNone(ns, IsUnread);
    } else {
      var i :| 0 <= i < |ns| && !ns[i].read;
      FilterMembers(ns, IsUnread);
      assert ns[i] in Filter(ns, IsUnread);
    }
  }

  /** A new notification in front raises the badge by one when it is unread. */
  lemma UnreadCountPrepend(n: Notification, ns: seq<Notification>)
    ensures UnreadCount([n] + ns) == UnreadCount(ns) + (if n.read then 0 else 1)
  {
    FilterConcat([n], ns, IsUnread);
    assert Filter([n], IsUnread) == Filter([], IsUnread) + (if IsUnread(n) then [n] else []);
  }

  /** Marking all as read sets every flag and changes nothing else; doing it again changes
      nothing; afterwards the badge is zero. */
  lemma MarkedReadSpec(ns: seq<Notification>)
    ensures |MarkedRead(ns)| == |ns|
    ensures forall i :: 0 <= i < |ns| ==> MarkedRead(ns)[i].read && MarkedRead(ns)[i].(read := ns[i].read) == ns[i]
    ensures MarkedRead(MarkedRead(ns)) == MarkedRead(ns)
    ensures UnreadCount(MarkedRead(ns)) == 0
  {
    UnreadCountZero(MarkedRead(ns));
  }

  // ----- the store -----

  /** The shell's state cells and their handlers. */
  class Store {
    var currentUser: Option<UserProfile>
    var documents: seq<Document>
    var notifications: seq<Notification>
    var isSidebarOpen: bool
    var activeView: View

    constructor ()
      ensures currentUser == None && documents == InitialDocs && notifications == []
      ensures !isSidebarOpen && activeView == DocumentsView
    {
      currentUser := None;
      documents := InitialDocs;
      notifications := [];
      isSidebarOpen := false;
      activeView := DocumentsView;
    }

    /** The number shown on the notifications entry. */
    function UnreadBadge(): nat
      reads this
    {
      UnreadCount(notifications)
    }

    /** `handleLogin`: the mock student for the student role, the mock professor otherwise, on
        the documents view. */
    method Login(role: UserRole)
      modifies this
      ensures currentUser == Some(if role == Student then MockStudent else MockProfessor)
      ensures activeView == DocumentsView
      ensures documents == old(documents) && notifications == old(notifications) && isSidebarOpen == old(isSidebarOpen)
    {
      currentUser := Some(if role == Student then MockStudent else MockProfessor);
      activeView := DocumentsView;
    }

    /** `handleLogout`: nobody signed in, the sidebar closed, the documents view. */
    method Logout()
      modifies this
      ensures currentUser == None && !isSidebarOpen && activeView == DocumentsView
      ensures documents == old(documents) && notifications == old(notifications)
    {
      currentUser := None;
      isSidebarOpen := false;
      activeView := DocumentsView;
    }

    /** `addNotification`: one new unread notification in front of the log. */
    method AddNotification(title: string, message: string, stamp: Stamp)
      modifies this
      ensures notifications == [Notification(stamp.id, title, message, stamp.date, false)] + old(notifications)
      ensures UnreadBadge() == old(UnreadBadge()) + 1
      ensures currentUser == old(currentUser) && documents == old(documents)
      ensures isSidebarOpen == old(isSidebarOpen) && activeView == old(activeView)
    {
      var n := Notification(stamp.id, title, message, stamp.date, false);
      UnreadCountPrepend(n, notifications);
      notifications := [n] + notifications;
    }

    /** `addDocument`: the new document first, the old list after it; a student upload also
        raises one notification, a professor upload none. */
    method AddDocument(doc: Document, stamp: Stamp)
      modifies this
      ensures documents == [doc] + old(documents)
      ensures doc.uploaderRole == Student ==>
        notifications == [Notification(stamp.id, SubmissionTitle(doc), SubmissionMessage(doc), stamp.date, false)]
                         + old(notifications)
      ensures doc.uploaderRole != Student ==> notifications == old(notifications)
      ensures UnreadBadge() == old(UnreadBadge()) + (if doc.uploaderRole == Student then 1 else 0)
      ensures currentUser == old(currentUser) && isSidebarOpen == old(isSidebarOpen) && activeView == old(activeView)
    {
      documents := [doc] + documents;
      if doc.uploaderRole == Student {
        AddNotification(SubmissionTitle(doc), SubmissionMessage(doc), stamp);
      }
    }

    /** `updateDocStatus`: the documents with that id take the new status and remarks (with no
        check that the change is a legal review step); when a document with that id existed,
        one notification names it, otherwise none is raised. */
    method UpdateDocStatus(id: string, status: DocStatus, remarks: Option<string>, stamp: Stamp)
      modifies this
      ensures documents == WithStatus(old(documents), id, status, remarks)
      ensures FindById(old(documents), id).Some? ==>
        notifications == [Notification(stamp.id, ReviewTitle(status),
                            ReviewMessage(FindById(old(documents), id).value.fileName, status, remarks),
                            stamp.date, false)] + old(notifications)
      ensures FindById(old(documents), id).None? ==> notifications == old(notifications)
      ensures currentUser == old(currentUser) && isSidebarOpen == old(isSidebarOpen) && activeView == old(activeView)
    {
      var before := documents;
      documents := WithStatus(documents, id, status, remarks);
      var found := FindById(before, id);
      if found.Some? {
        AddNotification(ReviewTitle(status), ReviewMessage(found.value.fileName, status, remarks), stamp);
      }
    }

    /** `markAllAsRead`. */
    method MarkAllAsRead()
      modifies this
      ensures notifications == MarkedRead(old(notifications))
      ensures UnreadBadge() == 0
      ensures currentUser == old(currentUser) && documents == old(documents)
      ensures isSidebarOpen == old(isSidebarOpen) && activeView == old(activeView)
    {
      MarkedReadSpec(notifications);
      notifications := MarkedRead(notifications);
    }

    /** `clearNotifications`. */
    method ClearNotifications()
      modifies this
      ensures notifications == [] && UnreadBadge() == 0
      ensures currentUser == old(currentUser) && documents == old(documents)
      ensures isSidebarOpen == old(isSidebarOpen) && activeView == old(activeView)
    {
      notifications := [];
    }
  }
}
