/** The student's document library: the search and tab filter, the grouping with its three
    viewer-relative uploader buckets, the order of the sections, their headings and the badges
    on each document card. */
module StudentDashboard {
  import opened Seqs
  import opened Text
  import opened Types
  import opened Grouping

  /** The "All Library" and "My Files" tabs. */
  datatype Tab = AllLibrary | MyFiles

  const ProfessorResources := "PROFESSOR_RESOURCES"
  const MyUploads := "MY_UPLOADS"
  const PeerContributions := "PEER_CONTRIBUTIONS"

  /** The three bucket names differ from each other, and so do their labels. */
  lemma BucketNamesDistinct()
    ensures ProfessorResources != MyUploads && ProfessorResources != PeerContributions && MyUploads != PeerContributions
    ensures "Official Professor Resources" != "My Uploads" && "Official Professor Resources" != "Peer Contributions"
    ensures "My Uploads" != "Peer Contributions"
  {
    assert |ProfessorResources| == 19 && |MyUploads| == 10 && |PeerContributions| == 18;
    assert |"Official Professor Resources"| == 28 && |"My Uploads"| == 10 && |"Peer Contributions"| == 18;
  }

  /** The search box matches the file name or the subject, ignoring case. */
  predicate MatchesSearch(d: Document, term: string) {
    Matches(d.fileName, term) || Matches(d.subject, term)
  }

  /** The predicate given to `documents.filter`. */
  predicate Keep(user: UserProfile, tab: Tab, term: string, d: Document) {
    MatchesSearch(d, term) && (tab == AllLibrary || d.uploaderId == user.id)
  }

  function KeepFn(user: UserProfile, tab: Tab, term: string): Document -> bool {
    d => Keep(user, tab, term, d)
  }

  /** `filteredDocs`. */
  function FilteredDocs(user: UserProfile, docs: seq<Document>, tab: Tab, term: string): seq<Document> {
    Filter(docs, KeepFn(user, tab, term))
  }

  /** The filtered list holds exactly the documents that match the search (and, on "My Files",
      are the viewer's own), each as often as in the input. */
  lemma FilteredDocsSpec(user: UserProfile, docs: seq<Document>, tab: Tab, term: string)
    ensures forall d :: d in FilteredDocs(user, docs, tab, term) <==> d in docs && Keep(user, tab, term, d)
    ensures forall d :: multiset(FilteredDocs(user, docs, tab, term))[d]
                     == (if Keep(user, tab, term, d) then multiset(docs)[d] else 0)
  {
    forall d
      ensures multiset(FilteredDocs(user, docs, tab, term))[d]
        == if Keep(user, tab, term, d) then multiset(docs)[d] else 0
    {
      FilterMultiset(docs, KeepFn(user, tab, term), d);
    }
  }

  /** The filter keeps the input order: filtering two parts one after the other gives the
      filtered parts one after the other. */
  lemma FilteredDocsOrder(user: UserProfile, a: seq<Document>, b: seq<Document>, tab: Tab, term: string)
    ensures FilteredDocs(user, a + b, tab, term) == FilteredDocs(user, a, tab, term) + FilteredDocs(user, b, tab, term)
  {
    FilterConcat(a, b, KeepFn(user, tab, term));
  }

  /** An empty search on the "All Library" tab keeps every document, in order. */
  lemma EmptySearchKeepsAll(user: UserProfile, docs: seq<Document>)
    ensures FilteredDocs(user, docs, AllLibrary, "") == docs
  {
    forall i | 0 <= i < |docs|
      ensures Keep(user, AllLibrary, "", docs[i])
    {
      EmptyTermMatches(docs[i].fileName);
    }
    FilterAll(docs, KeepFn(user, AllLibrary, ""));
  }

  /** The uploader bucket of a document for this viewer: a professor's upload first, then the
      viewer's own, then everyone else's. */
  function UploaderBucket(user: UserProfile, d: Document): string {
    if d.uploaderRole == Professor then ProfessorResources
    else if d.uploaderId == user.id then MyUploads
    else PeerContributions
  }

  /** The key a document is grouped under. */
  function GroupKey(user: UserProfile, c: Criteria, d: Document): string {
    if c == ByUploaderRole then UploaderBucket(user, d) else FieldValue(c, d)
  }

  function KeyFn(user: UserProfile, c: Criteria): Document -> string {
    d => GroupKey(user, c, d)
  }

  /** `groupDocuments`: the accumulator and the order in which its keys were created. Under the
      uploader grouping every key is one of the three buckets; otherwise every document sits
      under its own field value. */
  method GroupDocuments(user: UserProfile, c: Criteria, filtered: seq<Document>)
    returns (acc: map<string, seq<Document>>, order: seq<string>)
    ensures order == KeysOf(filtered, KeyFn(user, c))
    ensures forall k :: k in acc <==> k in order
    ensures forall k :: k in acc ==> acc[k] == Bucket(filtered, KeyFn(user, c), k) && acc[k] != []
    ensures EntriesOf(acc, order) == Entries(filtered, KeyFn(user, c))
    ensures c == ByUploaderRole ==>
      forall k :: k in acc ==> k == ProfessorResources || k == MyUploads || k == PeerContributions
    ensures c != ByUploaderRole ==>
      forall k, d :: k in acc && d in acc[k] ==> FieldValue(c, d) == k
  {
    acc, order := Accumulate(filtered, KeyFn(user, c));
    forall k | k in acc
      ensures c == ByUploaderRole ==> k == ProfessorResources || k == MyUploads || k == PeerContributions
      ensures c != ByUploaderRole ==> forall d :: d in acc[k] ==> FieldValue(c, d) == k
    {
      BucketMembers(filtered, KeyFn(user, c), k);
      var d := acc[k][0];
      assert d in Bucket(filtered, KeyFn(user, c), k);
    }
  }

  /** The comparator's table (lines 245-251): the three buckets in order, unknown keys at 99;
      every key alike under the other groupings, where the comparator returns 0. */
  function Rank(c: Criteria, key: string): nat {
    if c != ByUploaderRole then 0
    else if key == ProfessorResources then 0
    else if key == MyUploads then 1
    else if key == PeerContributions then 2
    else 99
  }

  function RankFn(c: Criteria): string -> nat {
    k => Rank(c, k)
  }

  /** `getGroupNameLabel`. */
  function GroupNameLabel(c: Criteria, key: string): string {
    if c == ByUploaderRole then
      if key == ProfessorResources then "Official Professor Resources"
      else if key == MyUploads then "My Uploads"
      else if key == PeerContributions then "Peer Contributions"
      else key
    else key
  }

  /** The sections view: the filtered documents grouped, the groups sorted by the comparator. */
  function Sections(user: UserProfile, docs: seq<Document>, tab: Tab, term: string, c: Criteria): seq<Group> {
    SortByRank(Entries(FilteredDocs(user, docs, tab, term), KeyFn(user, c)), RankFn(c))
  }

  /** The sections partition the filtered documents: together they hold each of them exactly as
      often as the filtered list does, no section is empty, each holds exactly the filtered
      documents of its key in filtered order, and no key has two sections. */
  lemma SectionsPartition(user: UserProfile, docs: seq<Document>, tab: Tab, term: string, c: Criteria)
    ensures multiset(Flatten(Sections(user, docs, tab, term, c))) == multiset(FilteredDocs(user, docs, tab, term))
    ensures KeysDistinct(Sections(user, docs, tab, term, c))
    ensures forall g :: g in Sections(user, docs, tab, term, c) ==>
      g.docs != [] && g.docs == Bucket(FilteredDocs(user, docs, tab, term), KeyFn(user, c), g.key)
    ensures forall d :: d in FilteredDocs(user, docs, tab, term) ==>
      exists g :: g in Sections(user, docs, tab, term, c) && g.key == GroupKey(user, c, d) && d in g.docs
  {
    var f := FilteredDocs(user, docs, tab, term);
    var key := KeyFn(user, c);
    var gs := Sections(user, docs, tab, term, c);
    SortedEntries(f, key, RankFn(c));
    EntriesShape(f, key);
    forall d | d in f
      ensures exists g :: g in gs && g.key == GroupKey(user, c, d) && d in g.docs
    {
      var i :| 0 <= i < |f| && f[i] == d;
      var k := key(d);
      assert k in KeysOf(f, key);
      var j :| 0 <= j < |KeysOf(f, key)| && KeysOf(f, key)[j] == k;
      var g := Entries(f, key)[j];
      BucketMembers(f, key, k);
      assert g in multiset(Entries(f, key));
      assert g in multiset(gs);
      assert d in g.docs;
    }
  }

  /** A section is not empty, and every document shown in it has the section's key.
      `Grouping.SortedEntryShape` stated over this dashboard's own `Sections` and `GroupKey`
      (the professor dashboard keeps its own copy over its own), so that the lemmas below can
      call it once per section without unfolding the sort. */
  lemma SectionShape(user: UserProfile, docs: seq<Document>, tab: Tab, term: string, c: Criteria, g: Group)
    requires g in Sections(user, docs, tab, term, c)
    ensures g.docs != []
    ensures forall d :: d in g.docs ==> GroupKey(user, c, d) == g.key
  {
    SortedEntryShape(FilteredDocs(user, docs, tab, term), KeyFn(user, c), RankFn(c), g);
  }

  /** One document of one section carries the section's key. */
  lemma InSection(user: UserProfile, docs: seq<Document>, tab: Tab, term: string, c: Criteria, g: Group, d: Document)
    requires g in Sections(user, docs, tab, term, c) && d in g.docs
    ensures GroupKey(user, c, d) == g.key
  {
    SectionShape(user, docs, tab, term, c, g);
  }

  /** Bucket precedence: a professor's upload always goes to "PROFESSOR_RESOURCES" (whoever
      uploaded it), the viewer's other uploads to "MY_UPLOADS", and the rest to
      "PEER_CONTRIBUTIONS". */
  lemma BucketPrecedence(user: UserProfile, d: Document)
    ensures UploaderBucket(user, d) == ProfessorResources <==> d.uploaderRole == Professor
    ensures UploaderBucket(user, d) == MyUploads <==> d.uploaderRole != Professor && d.uploaderId == user.id
    ensures UploaderBucket(user, d) == PeerContributions <==> d.uploaderRole != Professor && d.uploaderId != user.id
  {
    BucketNamesDistinct();
  }

  /** Under the uploader grouping, every document shown in a section is in that section's bucket. */
  lemma UploaderSections(user: UserProfile, docs: seq<Document>, tab: Tab, term: string)
    ensures forall g, d :: g in Sections(user, docs, tab, term, ByUploaderRole) && d in g.docs ==>
      UploaderBucket(user, d) == g.key
  {
    forall g, d | g in Sections(user, docs, tab, term, ByUploaderRole) && d in g.docs
      ensures UploaderBucket(user, d) == g.key
    {
      InSection(user, docs, tab, term, ByUploaderRole, g, d);
    }
  }

  /** Under a field grouping, every document of a section carries the section's key as its field. */
  lemma FieldSections(user: UserProfile, docs: seq<Document>, tab: Tab, term: string, c: Criteria)
    requires c != ByUploaderRole
    ensures forall g, d :: g in Sections(user, docs, tab, term, c) && d in g.docs ==> FieldValue(c, d) == g.key
  {
    forall g, d | g in Sections(user, docs, tab, term, c) && d in g.docs
      ensures FieldValue(c, d) == g.key
    {
      InSection(user, docs, tab, term, c, g, d);
    }
  }

  /** Section order: under the uploader grouping the sections come strictly in the order
      "PROFESSOR_RESOURCES", "MY_UPLOADS", "PEER_CONTRIBUTIONS"; under the other groupings the
      comparator returns 0 and the sections keep the order in which their keys first occur. */
  lemma SectionsOrder(user: UserProfile, docs: seq<Document>, tab: Tab, term: string, c: Criteria)
    ensures c == ByUploaderRole ==> forall i, j :: 0 <= i < j < |Sections(user, docs, tab, term, c)| ==>
      Rank(c, Sections(user, docs, tab, term, c)[i].key) < Rank(c, Sections(user, docs, tab, term, c)[j].key)
    ensures c != ByUploaderRole ==>
      Sections(user, docs, tab, term, c) == Entries(FilteredDocs(user, docs, tab, term), KeyFn(user, c))
  {
    BucketNamesDistinct();
    var f := FilteredDocs(user, docs, tab, term);
    var gs := Sections(user, docs, tab, term, c);
    if c == ByUploaderRole {
      SortedEntries(f, KeyFn(user, c), RankFn(c));
      SectionKeysAreBuckets(user, docs, tab, term);
      forall i, j | 0 <= i < j < |gs|
        ensures Rank(c, gs[i].key) < Rank(c, gs[j].key)
      {
        assert gs[i] in gs && gs[j] in gs;
        assert RankFn(c)(gs[i].key) <= RankFn(c)(gs[j].key);
        assert gs[i].key != gs[j].key;
      }
    } else {
      SortByRankUniform(Entries(f, KeyFn(user, c)), RankFn(c), 0);
    }
  }

  /** Under the uploader grouping every section is one of the three buckets. */
  lemma SectionKeysAreBuckets(user: UserProfile, docs: seq<Document>, tab: Tab, term: string)
    ensures forall g :: g in Sections(user, docs, tab, term, ByUploaderRole) ==>
      g.key == ProfessorResources || g.key == MyUploads || g.key == PeerContributions
  {
    forall g | g in Sections(user, docs, tab, term, ByUploaderRole)
      ensures g.key == ProfessorResources || g.key == MyUploads || g.key == PeerContributions
    {
      SectionShape(user, docs, tab, term, ByUploaderRole, g);
      assert g.docs[0] in g.docs;
    }
  }

  /** An unknown key ranks after all three buckets. */
  lemma UnknownKeysLast(key: string)
    requires key != ProfessorResources && key != MyUploads && key != PeerContributions
    ensures Rank(ByUploaderRole, key) > Rank(ByUploaderRole, PeerContributions) > Rank(ByUploaderRole, MyUploads)
      > Rank(ByUploaderRole, ProfessorResources)
  {
    BucketNamesDistinct();
  }

  /** Section headings: under the uploader grouping each heading is one of three fixed labels,
      and which one tells whose documents the section holds; under the other groupings the
      heading is the field value every document of the section shares. */
  lemma SectionHeadings(user: UserProfile, docs: seq<Document>, tab: Tab, term: string, c: Criteria)
    ensures forall g, d :: g in Sections(user, docs, tab, term, c) && d in g.docs ==>
      if c == ByUploaderRole then
        && (GroupNameLabel(c, g.key) == "Official Professor Resources" <==> d.uploaderRole == Professor)
        && (GroupNameLabel(c, g.key) == "My Uploads" <==> d.uploaderRole != Professor && d.uploaderId == user.id)
        && (GroupNameLabel(c, g.key) == "Peer Contributions" <==> d.uploaderRole != Professor && d.uploaderId != user.id)
      else GroupNameLabel(c, g.key) == FieldValue(c, d)
  {
    BucketNamesDistinct();
    forall g, d | g in Sections(user, docs, tab, term, c) && d in g.docs
      ensures if c == ByUploaderRole then
        && (GroupNameLabel(c, g.key) == "Official Professor Resources" <==> d.uploaderRole == Professor)
        && (GroupNameLabel(c, g.key) == "My Uploads" <==> d.uploaderRole != Professor && d.uploaderId == user.id)
        && (GroupNameLabel(c, g.key) == "Peer Contributions" <==> d.uploaderRole != Professor && d.uploaderId != user.id)
      else GroupNameLabel(c, g.key) == FieldValue(c, d)
    {
      InSection(user, docs, tab, term, c, g, d);
    }
  }

  /** The shield badge on a card: a professor's upload. */
  predicate ProfessorBadge(d: Document) {
    d.uploaderRole == Professor
  }

  /** The "my upload" badge on a card: the viewer's own upload that is not a professor's. */
  predicate MyUploadBadge(user: UserProfile, d: Document) {
    d.uploaderId == user.id && d.uploaderRole != Professor
  }

  /** A card never shows both badges, and the badges agree with the uploader buckets. */
  lemma BadgesExclusive(user: UserProfile, d: Document)
    ensures !(ProfessorBadge(d) && MyUploadBadge(user, d))
    ensures ProfessorBadge(d) <==> UploaderBucket(user, d) == ProfessorResources
    ensures MyUploadBadge(user, d) <==> UploaderBucket(user, d) == MyUploads
  {
    BucketNamesDistinct();
  }

  /** With the default grouping by subject, a document whose subject is an inherited property
      name such as "constructor" makes the reduce as written throw. */
  lemma ConstructorSubjectCrashes(user: UserProfile, d: Document)
    requires d.subject == "constructor"
    ensures ReduceAsWritten(FilteredDocs(user, [d], AllLibrary, ""), KeyFn(user, BySubject)).Failure?
  {
    EmptySearchKeepsAll(user, [d]);
    assert KeyFn(user, BySubject)([d][0]) in InheritedNames;
    ReduceAsWrittenFails([d], KeyFn(user, BySubject));
  }
}
