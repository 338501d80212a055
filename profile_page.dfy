/** The profile view: the viewer's own contributions and the identity fields it shows. */
module ProfilePage {
  import opened Seqs
  import opened Types

  function OwnedBy(id: string): Document -> bool {
    (d: Document) => d.uploaderId == id
  }

  /** `userDocs`: the documents the viewer uploaded. */
  function UserDocs(user: UserProfile, docs: seq<Document>): seq<Document> {
    Filter(docs, OwnedBy(user.id))
  }

  /** The viewer's documents are exactly those uploaded under the viewer's id, each as often as
      in the input, in input order. */
  lemma UserDocsSpec(user: UserProfile, docs: seq<Document>)
    ensures forall d :: d in UserDocs(user, docs) <==> d in docs && d.uploaderId == user.id
    ensures forall d :: multiset(UserDocs(user, docs))[d] == (if d.uploaderId == user.id then multiset(docs)[d] else 0)
  {
    forall d
      ensures multiset(UserDocs(user, docs))[d] == (if d.uploaderId == user.id then multiset(docs)[d] else 0)
    {
      FilterMultiset(docs, OwnedBy(user.id), d);
    }
  }

  lemma UserDocsOrder(user: UserProfile, a: seq<Document>, b: seq<Document>)
    ensures UserDocs(user, a + b) == UserDocs(user, a) + UserDocs(user, b)
  {
    FilterConcat(a, b, OwnedBy(user.id));
  }

  /** The "Recent Contributions" list: `userDocs.slice(0, 3)`. */
  function RecentContributions(user: UserProfile, docs: seq<Document>): seq<Document> {
    Take(UserDocs(user, docs), 3)
  }

  /** The empty-state message is shown when the viewer has no documents. */
  predicate ShowsEmptyState(user: UserProfile, docs: seq<Document>) {
    !(|UserDocs(user, docs)| > 0)
  }

  /** At most three contributions are shown, and they are the first of the viewer's own
      documents: all of them when there are three or fewer. */
  lemma RecentContributionsSpec(user: UserProfile, docs: seq<Document>)
    ensures |RecentContributions(user, docs)| <= 3
    ensures RecentContributions(user, docs) <= UserDocs(user, docs)
    ensures |UserDocs(user, docs)| <= 3 ==> RecentContributions(user, docs) == UserDocs(user, docs)
    ensures |UserDocs(user, docs)| >= 3 ==> |RecentContributions(user, docs)| == 3
    ensures forall d :: d in RecentContributions(user, docs) ==> d in docs && d.uploaderId == user.id
  {
    var u := UserDocs(user, docs);
    var r := RecentContributions(user, docs);
    UserDocsSpec(user, docs);
    forall d | d in r
      ensures d in docs && d.uploaderId == user.id
    {
      var i :| 0 <= i < |r| && r[i] == d;
      assert u[i] == d;
    }
  }

  /** The empty state is shown exactly when no document carries the viewer's id, and then the
      list is empty; otherwise the list shows at least one document. */
  lemma EmptyStateSpec(user: UserProfile, docs: seq<Document>)
    ensures ShowsEmptyState(user, docs) <==> forall i :: 0 <= i < |docs| ==> docs[i].uploaderId != user.id
    ensures ShowsEmptyState(user, docs) <==> RecentContributions(user, docs) == []
  {
    UserDocsSpec(user, docs);
    if forall i :: 0 <= i < |docs| ==> docs[i].uploaderId != user.id {
      FilterNone(docs, OwnedBy(user.id));
    } else {
      var i :| 0 <= i < |docs| && docs[i].uploaderId == user.id;
      assert docs[i] in UserDocs(user, docs);
    }
  }

  /** One labelled field on the profile card. */
  datatype Row = Row(caption: string, value: string)

  /** The card's fields in order: the email; the roll number and the academic year for students
      only; the branch, "Information Technology" when the user has none. An absent value
      renders as nothing. */
  function ProfileRows(user: UserProfile): seq<Row> {
    var isStudent := user.role == Student;
    [Row("Email Address", user.email)]
    + (if isStudent then [Row("Roll Number", user.rollNumber.GetOr(""))] else [])
    + [Row("Department/Branch", OrElse(user.branch, "Information Technology"))]
    + (if isStudent then [Row("Academic Year", user.year.GetOr(""))] else [])
  }

  predicate HasRow(rows: seq<Row>, caption: string) {
    exists i :: 0 <= i < |rows| && rows[i].caption == caption
  }

  /** The roll number and academic year appear exactly for students; the email and the branch
      always, the branch falling back to "Information Technology". */
  lemma ProfileRowsSpec(user: UserProfile)
    ensures HasRow(ProfileRows(user), "Roll Number") <==> user.role == Student
    ensures HasRow(ProfileRows(user), "Academic Year") <==> user.role == Student
    ensures HasRow(ProfileRows(user), "Email Address")
    ensures Row("Department/Branch", if Truthy(user.branch) then user.branch.value else "Information Technology")
            in ProfileRows(user)
  {
    var rows := ProfileRows(user);
    assert |"Email Address"| == 13 && |"Department/Branch"| == 17 && |"Roll Number"| == 11 && |"Academic Year"| == 13;
    assert "Email Address"[0] != "Academic Year"[0];
    assert rows[0].caption == "Email Address";
    if user.role == Student {
      assert rows[1].caption == "Roll Number" && rows[3].caption == "Academic Year";
      assert rows[2] == Row("Department/Branch", OrElse(user.branch, "Information Technology"));
    } else {
      assert |rows| == 2 && rows[1] == Row("Department/Branch", OrElse(user.branch, "Information Technology"));
    }
  }
}
