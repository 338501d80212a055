/** The professor's dashboard: the submissions queue, the library with its own uploader
    buckets, the analytics counts and the review dialog. */
module ProfessorDashboard {
  import opened Wrappers
  import opened Seqs
  import opened Text
  import opened Types
  import opened Grouping

  const MyResources := "MY_RESOURCES"
  const OtherProfessors := "OTHER_PROFESSORS"
  const StudentSubmissions := "STUDENT_SUBMISSIONS"

  /** The three bucket names differ from each other, and so do their labels. */
  lemma BucketNamesDistinct()
    ensures MyResources != OtherProfessors && MyResources != StudentSubmissions && OtherProfessors != StudentSubmissions
    ensures "My Resources" != "Other Professor Uploads" && "My Resources" != "Student Submissions"
    ensures "Other Professor Uploads" != "Student Submissions"
  {
    assert |MyResources| == 12 && |OtherProfessors| == 16 && |StudentSubmissions| == 19;
    assert |"My Resources"| == 12 && |"Other Professor Uploads"| == 23 && |"Student Submissions"| == 19;
  }

  // ----- the submissions queue -----

  predicate IsStudentUpload(d: Document) {
    d.uploaderRole == Student
  }

  /** `submissions`: the documents students uploaded. */
  function Submissions(docs: seq<Document>): seq<Document> {
    Filter(docs, IsStudentUpload)
  }

  /** The queue's search box matches the file name or the student's name, ignoring case. */
  predicate MatchesSubmission(d: Document, term: string) {
    Matches(d.fileName, term) || Matches(d.uploaderName, term)
  }

  function SubmissionFn(term: string): Document -> bool {
    d => MatchesSubmission(d, term)
  }

  /** `filteredSubmissions`. */
  function FilteredSubmissions(docs: seq<Document>, term: string): seq<Document> {
    Filter(Submissions(docs), SubmissionFn(term))
  }

  /** The queue holds exactly the student uploads that match the search, each as often as in the
      input, and keeps the input order. */
  lemma FilteredSubmissionsSpec(docs: seq<Document>, term: string)
    ensures forall d :: d in FilteredSubmissions(docs, term) <==>
      d in docs && d.uploaderRole == Student && MatchesSubmission(d, term)
    ensures forall d :: multiset(FilteredSubmissions(docs, term))[d]
                     == (if d.uploaderRole == Student && MatchesSubmission(d, term) then multiset(docs)[d] else 0)
  {
    forall d
      ensures multiset(FilteredSubmissions(docs, term))[d]
           == (if d.uploaderRole == Student && MatchesSubmission(d, term) then multiset(docs)[d] else 0)
    {
      FilterMultiset(docs, IsStudentUpload, d);
      FilterMultiset(Submissions(docs), SubmissionFn(term), d);
    }
  }

  lemma FilteredSubmissionsOrder(a: seq<Document>, b: seq<Document>, term: string)
    ensures FilteredSubmissions(a + b, term) == FilteredSubmissions(a, term) + FilteredSubmissions(b, term)
  {
    FilterConcat(a, b, IsStudentUpload);
    FilterConcat(Submissions(a), Submissions(b), SubmissionFn(term));
  }

  // ----- the library -----

  /** The library's search box matches the file name or the subject, ignoring case. */
  predicate MatchesLibrary(d: Document, term: string) {
    Matches(d.fileName, term) || Matches(d.subject, term)
  }

  function LibraryFn(term: string): Document -> bool {
    d => MatchesLibrary(d, term)
  }

  /** `filteredLibrary`: over all documents, whoever uploaded them. */
  function FilteredLibrary(docs: seq<Document>, term: string): seq<Document> {
    Filter(docs, LibraryFn(term))
  }

  /** The library holds exactly the documents that match the search, whatever their uploader,
      each as often as in the input, in input order; an empty search shows every document. */
  lemma FilteredLibrarySpec(docs: seq<Document>, term: string)
    ensures forall d :: d in FilteredLibrary(docs, term) <==> d in docs && MatchesLibrary(d, term)
    ensures forall d :: multiset(FilteredLibrary(docs, term))[d]
                     == (if MatchesLibrary(d, term) then multiset(docs)[d] else 0)
    ensures FilteredLibrary(docs, "") == docs
  {
    forall d
      ensures multiset(FilteredLibrary(docs, term))[d] == (if MatchesLibrary(d, term) then multiset(docs)[d] else 0)
    {
      FilterMultiset(docs, LibraryFn(term), d);
    }
    forall i | 0 <= i < |docs|
      ensures LibraryFn("")(docs[i])
    {
      EmptyTermMatches(docs[i].fileName);
    }
    FilterAll(docs, LibraryFn(""));
  }

  lemma FilteredLibraryOrder(a: seq<Document>, b: seq<Document>, term: string)
    ensures FilteredLibrary(a + b, term) == FilteredLibrary(a, term) + FilteredLibrary(b, term)
  {
    FilterConcat(a, b, LibraryFn(term));
  }

  /** The uploader bucket of a document for this professor: the viewer's own first, then other
      professors', then students'. */
  function LibraryBucket(user: UserProfile, d: Document): string {
    if d.uploaderId == user.id then MyResources
    else if d.uploaderRole == Professor then OtherProfessors
    else StudentSubmissions
  }

  function GroupKey(user: UserProfile, c: Criteria, d: Document): string {
    if c == ByUploaderRole then LibraryBucket(user, d) else FieldValue(c, d)
  }

  function KeyFn(user: UserProfile, c: Criteria): Document -> string {
    d => GroupKey(user, c, d)
  }

  /** `groupLibrary`: the accumulator and the order in which its keys were created. Under the
      uploader grouping every key is one of the three buckets; otherwise every document sits
      under its own field value. */
  method GroupLibrary(user: UserProfile, c: Criteria, filtered: seq<Document>)
    returns (acc: map<string, seq<Document>>, order: seq<string>)
    ensures order == KeysOf(filtered, KeyFn(user, c))
    ensures forall k :: k in acc <==> k in order
    ensures forall k :: k in acc ==> acc[k] == Bucket(filtered, KeyFn(user, c), k) && acc[k] != []
    ensures EntriesOf(acc, order) == Entries(filtered, KeyFn(user, c))
    ensures c == ByUploaderRole ==>
      forall k :: k in acc ==> k == MyResources || k == OtherProfessors || k == StudentSubmissions
    ensures c != ByUploaderRole ==>
      forall k, d :: k in acc && d in acc[k] ==> FieldValue(c, d) == k
  {
    acc, order := Accumulate(filtered, KeyFn(user, c));
    forall k | k in acc
      ensures c == ByUploaderRole ==> k == MyResources || k == OtherProfessors || k == StudentSubmissions
      ensures c != ByUploaderRole ==> forall d :: d in acc[k] ==> FieldValue(c, d) == k
    {
      BucketMembers(filtered, KeyFn(user, c), k);
      var d := acc[k][0];
      assert d in Bucket(filtered, KeyFn(user, c), k);
    }
  }

  /** The comparator's table (lines 277-283). */
  function Rank(c: Criteria, key: string): nat {
    if c != ByUploaderRole then 0
    else if key == MyResources then 0
    else if key == OtherProfessors then 1
    else if key == StudentSubmissions then 2
    else 99
  }

  function RankFn(c: Criteria): string -> nat {
    k => Rank(c, k)
  }

  /** `getGroupNameLabel`. */
  function GroupNameLabel(c: Criteria, key: string): string {
    if c == ByUploaderRole then
      if key == MyResources then "My Resources"
      else if key == OtherProfessors then "Other Professor Uploads"
      else if key == StudentSubmissions then "Student Submissions"
      else key
    else key
  }

  /** The library's sections: the filtered library grouped, the groups sorted by the comparator. */
  function Sections(user: UserProfile, docs: seq<Document>, term: string, c: Criteria): seq<Group> {
    SortByRank(Entries(FilteredLibrary(docs, term), KeyFn(user, c)), RankFn(c))
  }

  /** A section is not empty, and every document shown in it has the section's key:
      `Grouping.SortedEntryShape` stated over this dashboard's own `Sections` and `GroupKey`
      (the student dashboard keeps its own copy over its own). */
  lemma SectionShape(user: UserProfile, docs: seq<Document>, term: string, c: Criteria, g: Group)
    requires g in Sections(user, docs, term, c)
    ensures g.docs != []
    ensures forall d :: d in g.docs ==> GroupKey(user, c, d) == g.key
  {
    SortedEntryShape(FilteredLibrary(docs, term), KeyFn(user, c), RankFn(c), g);
  }

  /** One document of one section carries the section's key. */
  lemma InSection(user: UserProfile, docs: seq<Document>, term: string, c: Criteria, g: Group, d: Document)
    requires g in Sections(user, docs, term, c) && d in g.docs
    ensures GroupKey(user, c, d) == g.key
  {
    SectionShape(user, docs, term, c, g);
  }

  /** The sections partition the filtered library: together they hold each document exactly as
      often as the filtered library does, no section is empty, each holds exactly the documents
      of its key in filtered order, no key has two sections, and every filtered document is in
      the section of its key. */
  lemma SectionsPartition(user: UserProfile, docs: seq<Document>, term: string, c: Criteria)
    ensures multiset(Flatten(Sections(user, docs, term, c))) == multiset(FilteredLibrary(docs, term))
    ensures KeysDistinct(Sections(user, docs, term, c))
    ensures forall g :: g in Sections(user, docs, term, c) ==>
      g.docs != [] && g.docs == Bucket(FilteredLibrary(docs, term), KeyFn(user, c), g.key)
    ensures forall d :: d in FilteredLibrary(docs, term) ==>
      exists g :: g in Sections(user, docs, term, c) && g.key == GroupKey(user, c, d) && d in g.docs
  {
    var f := FilteredLibrary(docs, term);
    var key := KeyFn(user, c);
    var gs := Sections(user, docs, term, c);
    SortedEntries(f, key, RankFn(c));
    EntriesShape(f, key);
    forall d | d in f
      ensures exists g :: g in gs && g.key == GroupKey(user, c, d) && d in g.docs
    {
      var k := key(d);
      assert k in KeysOf(f, key);
      var j :| 0 <= j < |KeysOf(f, key)| && KeysOf(f, key)[j] == k;
      var g := Entries(f, key)[j];
      BucketMembers(f, key, k);
      assert g in multiset(Entries(f, key));
      assert g in multiset(gs);
      assert d in g.docs;
    }
    forall g | g in Sections(user, docs, term, c)
      ensures g.docs != [] && g.docs == Bucket(f, KeyFn(user, c), g.key)
    {
      SortedEntryShape(f, KeyFn(user, c), RankFn(c), g);
    }
  }

  /** Bucket precedence: the viewer's own upload goes to "MY_RESOURCES" whatever its role;
      other professors' uploads to "OTHER_PROFESSORS"; the rest to "STUDENT_SUBMISSIONS". */
  lemma BucketPrecedence(user: UserProfile, d: Document)
    ensures LibraryBucket(user, d) == MyResources <==> d.uploaderId == user.id
    ensures LibraryBucket(user, d) == OtherProfessors <==> d.uploaderId != user.id && d.uploaderRole == Professor
    ensures LibraryBucket(user, d) == StudentSubmissions <==> d.uploaderId != user.id && d.uploaderRole != Professor
  {
    BucketNamesDistinct();
  }

  /** Under the uploader grouping, every document shown in a section is in that section's bucket. */
  lemma UploaderSections(user: UserProfile, docs: seq<Document>, term: string)
    ensures forall g, d :: g in Sections(user, docs, term, ByUploaderRole) && d in g.docs ==>
      LibraryBucket(user, d) == g.key
  {
    forall g, d | g in Sections(user, docs, term, ByUploaderRole) && d in g.docs
      ensures LibraryBucket(user, d) == g.key
    {
      InSection(user, docs, term, ByUploaderRole, g, d);
    }
  }

  /** Under the uploader grouping every section is one of the three buckets. */
  lemma SectionKeysAreBuckets(user: UserProfile, docs: seq<Document>, term: string)
    ensures forall g :: g in Sections(user, docs, term, ByUploaderRole) ==>
      g.key == MyResources || g.key == OtherProfessors || g.key == StudentSubmissions
  {
    forall g | g in Sections(user, docs, term, ByUploaderRole)
      ensures g.key == MyResources || g.key == OtherProfessors || g.key == StudentSubmissions
    {
      SectionShape(user, docs, term, ByUploaderRole, g);
      assert g.docs[0] in g.docs;
    }
  }

  /** Section order: under the uploader grouping strictly "MY_RESOURCES", "OTHER_PROFESSORS",
      "STUDENT_SUBMISSIONS"; under the other groupings the order in which keys first occur. */
  lemma SectionsOrder(user: UserProfile, docs: seq<Document>, term: string, c: Criteria)
    ensures c == ByUploaderRole ==> forall i, j :: 0 <= i < j < |Sections(user, docs, term, c)| ==>
      Rank(c, Sections(user, docs, term, c)[i].key) < Rank(c, Sections(user, docs, term, c)[j].key)
    ensures c != ByUploaderRole ==>
      Sections(user, docs, term, c) == Entries(FilteredLibrary(docs, term), KeyFn(user, c))
  {
    BucketNamesDistinct();
    var f := FilteredLibrary(docs, term);
    var gs := Sections(user, docs, term, c);
    if c == ByUploaderRole {
      SortedEntries(f, KeyFn(user, c), RankFn(c));
      SectionKeysAreBuckets(user, docs, term);
      forall i, j | 0 <= i < j < |gs|
        ensures Rank(c, gs[i].key) < Rank(c, gs[j].key)
      {
        assert gs[i] in gs && gs[j] in gs;
        assert RankFn(c)(gs[i].key) <= RankFn(c)(gs[j].key);
        assert gs[i].key != gs[j].key;
      }
    } else {
      SortByRankUniform(Entries(f, KeyFn(user, c)), RankFn(c), 0);
    }
  }

  /** Section headings: under the uploader grouping one of three fixed labels telling whose
      documents the section holds; otherwise the field value every document of it shares. */
  lemma SectionHeadings(user: UserProfile, docs: seq<Document>, term: string, c: Criteria)
    ensures forall g, d :: g in Sections(user, docs, term, c) && d in g.docs ==>
      if c == ByUploaderRole then
        && (GroupNameLabel(c, g.key) == "My Resources" <==> d.uploaderId == user.id)
        && (GroupNameLabel(c, g.key) == "Other Professor Uploads" <==> d.uploaderId != user.id && d.uploaderRole == Professor)
        && (GroupNameLabel(c, g.key) == "Student Submissions" <==> d.uploaderId != user.id && d.uploaderRole != Professor)
      else GroupNameLabel(c, g.key) == FieldValue(c, d)
  {
    BucketNamesDistinct();
    forall g, d | g in Sections(user, docs, term, c) && d in g.docs
      ensures if c == ByUploaderRole then
        && (GroupNameLabel(c, g.key) == "My Resources" <==> d.uploaderId == user.id)
        && (GroupNameLabel(c, g.key) == "Other Professor Uploads" <==> d.uploaderId != user.id && d.uploaderRole == Professor)
        && (GroupNameLabel(c, g.key) == "Student Submissions" <==> d.uploaderId != user.id && d.uploaderRole != Professor)
      else GroupNameLabel(c, g.key) == FieldValue(c, d)
    {
      InSection(user, docs, term, c, g, d);
    }
  }

  /** The badge on a library card (line 122-125): the viewer's own upload, another professor's,
      or none. */
  datatype Badge = OwnBadge | VerifiedBadge

  function CardBadge(user: UserProfile, d: Document): Option<Badge> {
    if d.uploaderRole == Professor || d.uploaderId == user.id then
      Some(if d.uploaderId == user.id then OwnBadge else VerifiedBadge)
    else None
  }

  /** The card badge agrees with the uploader bucket. */
  lemma CardBadgeAgrees(user: UserProfile, d: Document)
    ensures CardBadge(user, d) == Some(OwnBadge) <==> LibraryBucket(user, d) == MyResources
    ensures CardBadge(user, d) == Some(VerifiedBadge) <==> LibraryBucket(user, d) == OtherProfessors
    ensures CardBadge(user, d) == None <==> LibraryBucket(user, d) == StudentSubmissions
  {
    BucketNamesDistinct();
  }

  /** With the default grouping by subject, a document whose subject is an inherited property
      name such as "toString" makes the reduce as written throw. */
  lemma InheritedSubjectCrashes(user: UserProfile, d: Document)
    requires d.subject == "toString"
    ensures ReduceAsWritten(FilteredLibrary([d], ""), KeyFn(user, BySubject)).Failure?
  {
    FilteredLibrarySpec([d], "");
    assert KeyFn(user, BySubject)([d][0]) in InheritedNames;
    ReduceAsWrittenFails([d], KeyFn(user, BySubject));
  }

  // ----- analytics -----

  function SubjectFn(): Document -> string {
    (d: Document) => d.subject
  }

  /** The sum of `counts[k]` over the keys `ks`. */
  function SumCounts(counts: map<string, nat>, ks: seq<string>): nat
    requires forall i :: 0 <= i < |ks| ==> ks[i] in counts
    decreases |ks|
  {
    if |ks| == 0 then 0 else SumCounts(counts, ks[..|ks| - 1]) + counts[ks[|ks| - 1]]
  }

  /** When every count is its bucket's size, the counts add up to the flattened groups' length. */
  lemma {:induction false} SumCountsFlatten(docs: seq<Document>, counts: map<string, nat>, ks: seq<string>)
    requires forall i :: 0 <= i < |ks| ==> ks[i] in counts && counts[ks[i]] == |Bucket(docs, SubjectFn(), ks[i])|
    ensures SumCounts(counts, ks) == |Flatten(GroupsFor(docs, SubjectFn(), ks))|
    decreases |ks|
  {
    if |ks| > 0 {
      var ks' := ks[..|ks| - 1];
      SumCountsFlatten(docs, counts, ks');
      assert GroupsFor(docs, SubjectFn(), ks)[..|ks| - 1] == GroupsFor(docs, SubjectFn(), ks');
    }
  }

  /** `subjectDataMap` with its keys: one counter per subject, in the order subjects first
      occur (integer-like subjects, which `Object.keys` lists first, are not told apart); each
      counter is the number of documents with that subject; the counters add up to the number
      of documents. */
  method SubjectDataMap(docs: seq<Document>) returns (counts: map<string, nat>, subjects: seq<string>)
    ensures subjects == KeysOf(docs, SubjectFn())
    ensures forall s :: s in counts <==> s in subjects
    ensures forall s :: s in counts ==> counts[s] == |Bucket(docs, SubjectFn(), s)| && counts[s] > 0
    ensures forall i :: 0 <= i < |subjects| ==> subjects[i] in counts
    ensures SumCounts(counts, subjects) == |docs|
  {
    counts, subjects := map[], [];
    for i := 0 to |docs|
      invariant subjects == KeysOf(docs[..i], SubjectFn())
      invariant forall s :: s in counts <==> s in subjects
      invariant forall s :: s in counts ==> counts[s] == |Bucket(docs[..i], SubjectFn(), s)|
    {
      var d := docs[i];
      assert docs[..i + 1] == docs[..i] + [d];
      if d.subject !in counts {
        KeysOfBucket(docs[..i], SubjectFn(), d.subject);
      }
      counts := counts[d.subject := (if d.subject in counts then counts[d.subject] else 0) + 1];
      if d.subject !in subjects {
        subjects := subjects + [d.subject];
      }
      forall s | s in counts
        ensures counts[s] == |Bucket(docs[..i + 1], SubjectFn(), s)|
      {
        BucketExtend(docs[..i], d, SubjectFn(), s);
      }
    }
    assert docs[..|docs|] == docs;
    forall s | s in counts
      ensures counts[s] > 0
    {
      KeysOfBucket(docs, SubjectFn(), s);
    }
    SumCountsFlatten(docs, counts, subjects);
    EntriesPartition(docs, SubjectFn());
  }

  // ----- submission statistics -----

  predicate IsPending(d: Document) {
    d.status == Submitted
  }

  predicate IsApproved(d: Document) {
    d.status == Approved
  }

  predicate IsRejected(d: Document) {
    d.status == Rejected
  }

  /** `Math.round(approved / total * 100)`, or 0 with no submissions. `Math.round(x)` is
      `floor(x + 1/2)`; on the exact quotient that is `(200 * approved + total) div (2 * total)`. */
  function ApprovalRate(approved: nat, total: nat): nat {
    if total == 0 then 0 else (200 * approved + total) / (2 * total)
  }

  /** The analytics cards: total submissions, pending reviews, approval rate (lines 203-212). */
  datatype Stats = Stats(total: nat, pending: nat, approved: nat, approvalRate: nat)

  function SubmissionStats(docs: seq<Document>): Stats {
    var subs := Submissions(docs);
    var approved := |Filter(subs, IsApproved)|;
    Stats(|subs|, |Filter(subs, IsPending)|, approved, ApprovalRate(approved, |subs|))
  }

  /** Integer division is pinned down by bracketing. */
  lemma DivBetween(n: nat, m: nat, q: nat)
    requires m > 0 && m * q <= n < m * (q + 1)
    ensures n / m == q
  {
    var d := n / m;
    assert n == m * d + n % m;
    assert m * (d + 1) == m * d + m && m * (q + 1) == m * q + m;
    MulMono(m, d + 1, q);
    MulMono(m, q + 1, d);
  }

  lemma MulMono(m: nat, x: nat, y: nat)
    ensures x <= y ==> m * x <= m * y
  {
    if x <= y {
      assert m * y == m * x + m * (y - x);
    }
  }

  /** The rounded percentage of `approved` out of `total` lies between 0 and 100, is 0 when none
      are approved and 100 when all are. */
  lemma RateBounds(approved: nat, total: nat)
    requires approved <= total
    ensures ApprovalRate(approved, total) <= 100
    ensures approved == 0 ==> ApprovalRate(approved, total) == 0
    ensures 0 < total == approved ==> ApprovalRate(approved, total) == 100
  {
    if total > 0 {
      var n, m := 200 * approved + total, 2 * total;
      if approved == 0 {
        DivBetween(n, m, 0);
      } else if approved == total {
        DivBetween(n, m, 100);
      }
      var q := n / m;
      assert n == m * q + n % m;
      MulMono(m, 101, q);
    }
  }

  /** Each submission is pending, approved or rejected. */
  lemma {:induction false} StatusSplit(s: seq<Document>)
    ensures |Filter(s, IsPending)| + |Filter(s, IsApproved)| + |Filter(s, IsRejected)| == |s|
    decreases |s|
  {
    if |s| > 0 {
      StatusSplit(s[..|s| - 1]);
    }
  }

  /** The statistics stay in range: the pending, approved and rejected submissions make up the
      total; the rate is a percentage, 0 with no submissions or none approved and 100 when all
      are approved. */
  lemma StatsBounds(docs: seq<Document>)
    ensures SubmissionStats(docs).total == |Submissions(docs)|
    ensures SubmissionStats(docs).pending + SubmissionStats(docs).approved <= SubmissionStats(docs).total
    ensures SubmissionStats(docs).approvalRate <= 100
    ensures SubmissionStats(docs).total == 0 ==> SubmissionStats(docs).approvalRate == 0
    ensures SubmissionStats(docs).approved == 0 ==> SubmissionStats(docs).approvalRate == 0
    ensures 0 < SubmissionStats(docs).total == SubmissionStats(docs).approved ==> SubmissionStats(docs).approvalRate == 100
  {
    var subs := Submissions(docs);
    StatusSplit(subs);
    RateBounds(|Filter(subs, IsApproved)|, |subs|);
  }

  // ----- the review dialog -----

  /** "Review Now" is offered only on submissions still awaiting review (line 367). */
  predicate ReviewOffered(d: Document) {
    d.status == Submitted
  }

  /** A call of `onReview(id, status, remarks)`. */
  datatype ReviewCall = ReviewCall(id: string, status: DocStatus, remarks: string)

  /** The dialog's state cells `reviewingDoc` and `remarks`. */
  class ReviewPanel {
    var reviewingDoc: Option<Document>
    var remarks: string

    /** The dialog is open only on a document that was offered for review. */
    ghost predicate Valid()
      reads this
    {
      reviewingDoc.Some? ==> ReviewOffered(reviewingDoc.value)
    }

    constructor ()
      ensures Valid()
      ensures reviewingDoc == None && remarks == ""
    {
      reviewingDoc := None;
      remarks := "";
    }

    /** "Review Now": opens the dialog on a submitted document. */
    method OpenReview(d: Document)
      requires ReviewOffered(d)
      modifies this
      ensures Valid()
      ensures reviewingDoc == Some(d) && remarks == old(remarks)
    {
      reviewingDoc := Some(d);
    }

    /** Typing in the remarks box. */
    method EditRemarks(r: string)
      requires Valid()
      modifies this
      ensures Valid()
      ensures remarks == r && reviewingDoc == old(reviewingDoc)
    {
      remarks := r;
    }

    /** The close button: the dialog closes, the remarks typed so far stay. */
    method CloseReview()
      modifies this
      ensures Valid()
      ensures reviewingDoc == None && remarks == old(remarks)
    {
      reviewingDoc := None;
    }

    /** `handleReview`, from the "Reject" and "Approve" buttons: with a document under review it
        calls `onReview` once with that document's id, the chosen status and the current
        remarks, then closes the dialog and clears the remarks; with none it does nothing. */
    method HandleReview(status: DocStatus) returns (call: Option<ReviewCall>)
      requires Valid()
      requires status == Approved || status == Rejected
      modifies this
      ensures Valid()
      ensures old(reviewingDoc).Some? ==>
        && call == Some(ReviewCall(old(reviewingDoc).value.id, status, old(remarks)))
        && ReviewOffered(old(reviewingDoc).value)
        && reviewingDoc == None && remarks == ""
      ensures old(reviewingDoc).None? ==>
        call == None && reviewingDoc == old(reviewingDoc) && remarks == old(remarks)
    {
      call := None;
      if reviewingDoc.Some? {
        call := Some(ReviewCall(reviewingDoc.value.id, status, remarks));
        reviewingDoc := None;
        remarks := "";
      }
    }
  }
}
