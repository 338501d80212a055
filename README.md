# Academic document repository: a verified model of its view logic

The repository is a React front end for sharing academic documents between students and
professors. It has no server. An in-memory document list and notification log live in the
application shell (`App.tsx`). Everything else in the core is a collection operation over
those lists:

- the student dashboard filters the library by search term and tab, groups it into sections
  and orders the sections;
- the professor dashboard keeps a queue of student submissions, groups the library into its
  own three uploader sections, counts documents per subject, computes the submission
  statistics and runs the review dialog;
- the upload dialog builds a new document record around a summary from an AI summarizer;
- the profile page lists the viewer's own contributions.

This project models those operations in Dafny and proves what the views promise about them.

Modules and files:

- `wrappers.dfy` (`Wrappers`): `Option`, for optional fields, and `Result`, for the crash
  found below.
- `seqs.dfy` (`Seqs`): `Array.prototype.filter` and `slice(0, n)` on sequences. It proves
  that filtering keeps order, distributes over concatenation, and keeps exact multiplicities.
- `text.dfy` (`Text`): `toLowerCase` and `includes`. `Includes` is proved equal to "occurs at
  some position".
- `types.dfy` (`Types`): the records and enumerations of `types.ts`, their string values, and
  JavaScript's truthiness and `||` fallback on optional strings.
- `grouping.dfy` (`Grouping`): the grouping engine both dashboards share:
  - the `reduce` that pushes each document into `acc[key]`, written as a loop over a map
    (`Accumulate`);
  - `Object.entries` of the result, in insertion order;
  - the section sort (`Array.prototype.sort`, which is stable), as an insertion sort by rank;
  - the reduce exactly as written, on an object literal that inherits `Object.prototype`
    (see Findings).
- `student_dashboard.dfy` (`StudentDashboard`): `filteredDocs`, `groupDocuments`, bucket
  precedence, section order and headings, and the card badges.
- `professor_dashboard.dfy` (`ProfessorDashboard`):
  - `submissions`, `filteredSubmissions`, `filteredLibrary` and `groupLibrary`, with the
    section order and headings, and the card badge;
  - `subjectDataMap`, as a loop that updates a map of counters;
  - the statistics cards;
  - the review dialog, as the class `ReviewPanel` over the state cells `reviewingDoc` and
    `remarks`.
- `app.dfy` (`App`): the shell's state cells as the class `Store`, with `handleLogin`,
  `handleLogout`, `addDocument`, `updateDocStatus`, `addNotification`, `markAllAsRead`,
  `clearNotifications` and the unread badge.
- `upload_modal.dfy` (`UploadModal`): the new document record, and the dialog as the class
  `UploadForm`.
  - `handleSubmit` pauses twice, at `await` and at `setTimeout`. It is split into three
    steps (`BeginSubmit`, `SummaryReturned`, `DelayElapsed`); a `Phase` field records which
    continuation is pending.
  - `HandleSubmit` runs the three steps in a row.
- `profile_page.dfy` (`ProfilePage`): `userDocs`, the three most recent contributions, the
  empty state and the identity fields.

Inputs that are not functions of the state are parameters:

- the summarizer's answer, or in `HandleSubmit` the summarizer itself as a function value;
- `Date.now()` ids and the date strings (`Stamp`, and the `id` and `uploadDate` arguments);
- the object URL of the picked file.

## Model

| member | source | states |
|---|---|---|
| Text.IncludesIffOccurs | components/DashboardStudent.tsx:42-43 | `includes` holds exactly when the term occurs in the field at some position (both directions). |
| Text.MatchesFoldedTerm | components/DashboardStudent.tsx:42-43 | The search ignores the case of the term: folding it first does not change the match. |
| Text.EmptyTermMatches | components/DashboardStudent.tsx:42-43 | An empty search term matches every field. |
| Seqs.FilterMembers | components/DashboardStudent.tsx:41-46 | `filter` keeps exactly the elements that satisfy the predicate. |
| Seqs.FilterMultiset | components/DashboardStudent.tsx:41-46 | `filter` keeps each element exactly as often as in the input when the predicate holds for it, and drops it otherwise. |
| Seqs.FilterConcat | components/DashboardStudent.tsx:41-46 | `filter` keeps input order: filtering a concatenation is concatenating the filtered parts. |
| Seqs.Take | components/ProfilePage.tsx:115 | `slice(0, n)` is a prefix of the input, of length `min(length, n)`. |
| Grouping.Accumulate | components/DashboardStudent.tsx:48-67 | The accumulator loop ends with one entry per distinct key, created in first-occurrence order. Each entry holds exactly the documents with that key, in input order, and is never empty. Reading the entries off the accumulator gives exactly `Entries`, from which the sections are built. |
| Grouping.KeysOfBucket | components/DashboardStudent.tsx:63-64 | A key gets an entry exactly when some document has that key. |
| Grouping.KeysOfDistinct | components/DashboardStudent.tsx:63 | No key gets two entries. |
| Grouping.EntriesShape | components/DashboardStudent.tsx:48-67 | The entries have distinct keys and every document's key is among them. Each entry holds exactly its key's documents and is not empty. |
| Grouping.EntriesPartition | components/DashboardStudent.tsx:48-67 | The entries together hold every input document exactly as often as the input does: no loss, no duplication, and the sizes add up. |
| Grouping.SortByRank | components/DashboardStudent.tsx:244-251 | The section sort returns a permutation of the sections, ordered by the comparator's rank. |
| Grouping.SortByRankUniform | components/DashboardStudent.tsx:245-251 | When the comparator returns 0 for every pair, the (stable) sort leaves the order unchanged. |
| Grouping.SortedEntries | components/DashboardStudent.tsx:244-251 | The sorted sections still partition the documents and still have distinct keys, and each is one of the entries. |
| Grouping.SortedEntryShape | components/DashboardStudent.tsx:244-264 | Every displayed section is non-empty and holds exactly the documents of its key. |
| Grouping.ReduceAsWrittenAgrees | components/DashboardStudent.tsx:49-66 | When no key is an inherited property name, the reduce as written succeeds. It yields the same key order and the same lists as `Accumulate`. |
| Grouping.ReduceAsWrittenFails | components/DashboardStudent.tsx:63-64 | The reduce as written throws exactly when some key is a property name inherited from `Object.prototype`. |
| StudentDashboard.FilteredDocsSpec | components/DashboardStudent.tsx:41-46 | The filtered list holds exactly the documents whose file name or subject contains the term, ignoring case, and on "My Files" only the viewer's own. Each appears as often as in the input. |
| StudentDashboard.FilteredDocsOrder | components/DashboardStudent.tsx:41-46 | The filter keeps input order. |
| StudentDashboard.EmptySearchKeepsAll | components/DashboardStudent.tsx:42-44 | An empty search on the "all" tab keeps every document, in order. |
| StudentDashboard.GroupDocuments | components/DashboardStudent.tsx:48-67 | `groupDocuments` yields one non-empty entry per key, holding that key's documents in order. Under uploader grouping every key is one of the three buckets; otherwise each document sits under its own field value. Its entries are exactly `Entries`, which the rendered sections sort. |
| StudentDashboard.SectionsPartition | components/DashboardStudent.tsx:48-67 | The displayed sections partition the filtered list. Every filtered document sits in the section of its key, no section is empty, and no key repeats. |
| StudentDashboard.BucketPrecedence | components/DashboardStudent.tsx:53-61 | A professor's upload always goes to `PROFESSOR_RESOURCES`, even the viewer's own. The viewer's other uploads go to `MY_UPLOADS`, the rest to `PEER_CONTRIBUTIONS` (each an if-and-only-if). |
| StudentDashboard.UploaderSections | components/DashboardStudent.tsx:48-67 | Under uploader grouping, every document shown in a section is in that section's bucket. |
| StudentDashboard.FieldSections | components/DashboardStudent.tsx:50 | Under subject, type or status grouping, every document of a section has the section key as its field value. |
| StudentDashboard.SectionKeysAreBuckets | components/DashboardStudent.tsx:53-61 | Under uploader grouping every section key is one of the three bucket names. |
| StudentDashboard.SectionsOrder | components/DashboardStudent.tsx:244-251 | Under uploader grouping, sections come strictly in the order `PROFESSOR_RESOURCES`, `MY_UPLOADS`, `PEER_CONTRIBUTIONS`. Otherwise they keep first-occurrence order. |
| StudentDashboard.UnknownKeysLast | components/DashboardStudent.tsx:247-248 | A key outside the table ranks 99, after all three buckets. |
| StudentDashboard.SectionHeadings | components/DashboardStudent.tsx:80-90 | Each of the three bucket labels is shown exactly on the sections holding the documents of that bucket. Under other groupings the heading is the shared field value. |
| StudentDashboard.BadgesExclusive | components/DashboardStudent.tsx:103-112 | A card never shows both the professor badge and the "my upload" badge. Each badge agrees with the document's bucket. |
| StudentDashboard.ConstructorSubjectCrashes | components/DashboardStudent.tsx:36-69 | With the default subject grouping, a document whose subject is "constructor" makes the dashboard's reduce throw. |
| ProfessorDashboard.FilteredSubmissionsSpec | components/DashboardProfessor.tsx:44-49 | The queue holds exactly the student uploads whose file name or uploader name contains the term, ignoring case. Each appears as often as in the input. |
| ProfessorDashboard.FilteredSubmissionsOrder | components/DashboardProfessor.tsx:44-49 | The queue keeps input order. |
| ProfessorDashboard.FilteredLibrarySpec | components/DashboardProfessor.tsx:51-54 | The library ranges over every document, whoever uploaded it. It holds exactly those whose file name or subject matches, and an empty search shows all of them. |
| ProfessorDashboard.FilteredLibraryOrder | components/DashboardProfessor.tsx:51-54 | The library keeps input order. |
| ProfessorDashboard.GroupLibrary | components/DashboardProfessor.tsx:56-74 | `groupLibrary` yields one non-empty entry per key, holding that key's documents in order. Under uploader grouping every key is one of the three buckets; otherwise each document sits under its own field value. Its entries are exactly `Entries`, which the rendered sections sort. |
| ProfessorDashboard.SectionsPartition | components/DashboardProfessor.tsx:56-74 | The library sections partition the filtered library. Every document sits in the section of its key, no section is empty, and no key repeats. |
| ProfessorDashboard.BucketPrecedence | components/DashboardProfessor.tsx:60-68 | The viewer's own upload goes to `MY_RESOURCES`, checked before the role. Other professors' uploads go to `OTHER_PROFESSORS`, the rest to `STUDENT_SUBMISSIONS` (each an if-and-only-if). |
| ProfessorDashboard.UploaderSections | components/DashboardProfessor.tsx:56-74 | Under uploader grouping, every document shown in a section is in that section's bucket. |
| ProfessorDashboard.SectionKeysAreBuckets | components/DashboardProfessor.tsx:60-68 | Under uploader grouping every section key is one of the three bucket names. |
| ProfessorDashboard.SectionsOrder | components/DashboardProfessor.tsx:276-283 | Under uploader grouping, sections come strictly in the order `MY_RESOURCES`, `OTHER_PROFESSORS`, `STUDENT_SUBMISSIONS`. Otherwise they keep first-occurrence order. |
| ProfessorDashboard.SectionHeadings | components/DashboardProfessor.tsx:78-88 | Each of the three bucket labels is shown exactly on the sections holding that bucket's documents. Under other groupings the heading is the field value. |
| ProfessorDashboard.CardBadgeAgrees | components/DashboardProfessor.tsx:122-125 | The card shows the "own" badge exactly on `MY_RESOURCES` documents and the verified badge exactly on `OTHER_PROFESSORS` documents; a student submission gets no badge. |
| ProfessorDashboard.InheritedSubjectCrashes | components/DashboardProfessor.tsx:40-76 | With the default subject grouping, a library document whose subject is "toString" makes the library's reduce throw. |
| ProfessorDashboard.SubjectDataMap | components/DashboardProfessor.tsx:100-108 | There is one counter per subject, listed in first-occurrence order. Each counter equals the number of documents with that subject, and the counters add up to `documents.length`. |
| ProfessorDashboard.SumCountsFlatten | components/DashboardProfessor.tsx:105-108 | When every counter is its subject's document count, the counters add up to the size of the grouped documents. |
| ProfessorDashboard.StatusSplit | components/DashboardProfessor.tsx:203-212 | The pending, approved and rejected submissions add up to the total. |
| ProfessorDashboard.RateBounds | components/DashboardProfessor.tsx:212 | The rounded percentage lies in 0..100. It is 0 when none are approved and 100 when all are. |
| ProfessorDashboard.StatsBounds | components/DashboardProfessor.tsx:200-213 | The cards: pending plus approved is at most the total, and the rate is a percentage. The rate is 0 with no submissions or none approved, and 100 when all are approved. |
| ProfessorDashboard.ReviewPanel.OpenReview | components/DashboardProfessor.tsx:367-373 | "Review Now" exists only for Submitted documents and opens the dialog on that document; the dialog's invariant holds. |
| ProfessorDashboard.ReviewPanel.HandleReview | components/DashboardProfessor.tsx:112-118 | With a document under review, one `onReview` call carries that document's id, the chosen status and the current remarks, and the target and remarks are cleared. The reviewed document was Submitted. With no target nothing happens. |
| ProfessorDashboard.ReviewPanel.EditRemarks | components/DashboardProfessor.tsx:455 | Typing sets the remarks and keeps the document under review. |
| ProfessorDashboard.ReviewPanel.CloseReview | components/DashboardProfessor.tsx:401 | Closing the dialog clears the target and keeps the remarks. |
| App.FindById | App.tsx:98 | `find` yields a document with that id exactly when one exists, and it is the first such document. |
| App.WithStatus | App.tsx:97 | The status update sets the status and remarks of the documents with that id, whatever their old status (nothing checks the transition). Every other field, every other document, the order and the length stay. |
| App.WithStatusIdempotent | App.tsx:96-97 | Applying the same update twice is applying it once. A later lookup by that id sees the new status and remarks. |
| App.ReviewMessageShape | App.tsx:99-104 | The status message names the file and the lower-cased status. It ends with `: remarks` when the remarks are non-empty, and with `.` otherwise. |
| App.ReviewTitleInjective | App.tsx:101 | Different statuses give different notification titles. |
| App.UnreadCountZero | App.tsx:167 | The badge never exceeds the log, and is zero exactly when every notification is read. |
| App.UnreadCountPrepend | App.tsx:107-116 | A notification added in front raises the badge by one when it is unread. |
| App.MarkedReadSpec | App.tsx:118-120 | Mark-all-read sets every flag and changes nothing else. It is idempotent, and afterwards the badge is zero. |
| App.Store.Login | App.tsx:78-81 | The mock student for the student role, the mock professor otherwise, on the documents view. The lists and the sidebar stay. |
| App.Store.Logout | App.tsx:83-87 | No user, the sidebar closed, the documents view; the lists stay. |
| App.Store.AddNotification | App.tsx:107-116 | One unread notification with the given title and message goes in front of the log, and the badge rises by one. |
| App.Store.AddDocument | App.tsx:89-94 | The new document goes first and the old list follows unchanged. A student upload adds exactly one "New Submission" notification; a professor upload adds none. |
| App.Store.UpdateDocStatus | App.tsx:96-105 | The documents with that id take the new status and remarks. Exactly one notification is added when such a document existed, and none otherwise. |
| App.Store.MarkAllAsRead | App.tsx:118-120 | The log becomes its all-read copy and the badge is zero. |
| App.Store.ClearNotifications | App.tsx:122-124 | The log is empty and the badge is zero. |
| UploadModal.NewDocument | components/UploadModal.tsx:39-53 | The status is Approved exactly for a professor, Submitted exactly for a student. File, subject and type come from the form; uploader fields come from the user. Year and branch fall back to 'N/A', so neither is ever empty. The summary is stored as returned. |
| UploadModal.UploadRouting | components/UploadModal.tsx:50 | A student's upload joins the professor's review queue and is offered for review. A professor's upload is never queued or offered. |
| UploadModal.UploadForm.DisabledWhileInFlight | components/UploadModal.tsx:157 | While a submission is in flight (from the summary request until the record is handed over), the submit button is disabled, so no second submission can start. |
| UploadModal.UploadForm.EnabledClickSubmits | components/UploadModal.tsx:157 | A click on the enabled button meets `BeginSubmit`'s guard (no upload in progress) and passes its early return (a file and a subject are present). |
| UploadModal.UploadForm.SetSubject | components/UploadModal.tsx:121 | Typing sets the subject and leaves the file, the type and both flags unchanged. |
| UploadModal.UploadForm.SetType | components/UploadModal.tsx:129 | Choosing a type sets it and leaves the file, the subject and both flags unchanged. |
| UploadModal.UploadForm.HandleFileChange | components/UploadModal.tsx:21-25 | The selection changes only when the input supplies a first file. |
| UploadModal.UploadForm.BeginSubmit | components/UploadModal.tsx:27-35 | Without a file or a subject nothing happens. Otherwise both flags are set before the summary is requested, the form values are captured, and the submit button becomes disabled. |
| UploadModal.UploadForm.SummaryReturned | components/UploadModal.tsx:35-53 | When the summary returns, `aiAnalyzing` clears, `isUploading` stays set (the button stays disabled), and the record is built from the captured values and the summary. |
| UploadModal.UploadForm.DelayElapsed | components/UploadModal.tsx:55-59 | The record is handed to `onUpload`, and only then is `isUploading` cleared. |
| UploadModal.UploadForm.HandleSubmit | components/UploadModal.tsx:27-60 | A full submission uploads nothing without a file or subject. Otherwise it uploads exactly the record built from the form and the summarizer's answer, and both flags end clear. |
| ProfilePage.UserDocsSpec | components/ProfilePage.tsx:24 | The viewer's documents are exactly those carrying the viewer's id, each as often as in the input. |
| ProfilePage.UserDocsOrder | components/ProfilePage.tsx:24 | They keep input order. |
| ProfilePage.RecentContributionsSpec | components/ProfilePage.tsx:113-115 | At most three contributions are shown, all of them the viewer's own. They are the first of the viewer's documents: all of them when there are at most three, otherwise exactly three. |
| ProfilePage.EmptyStateSpec | components/ProfilePage.tsx:113-135 | The empty-state message shows exactly when no document has the viewer's id, which is exactly when the recent list is empty. |
| ProfilePage.ProfileRowsSpec | components/ProfilePage.tsx:25-103 | Roll number and academic year appear exactly for students. The email and the branch always appear, the branch falling back to 'Information Technology'. |

## Left out

- Markup, styles, icons, the layout toggle, the sidebar toggle, the navigation clicks and the
  bar chart's rendering: presentation only.
- The summarizer's body (a call into the Google GenAI SDK) and its two fallback strings: the
  summarizer is a parameter. `HandleSubmit` takes any function of the file name, the subject
  and the type's text.
- `Date.now()`, `new Date()`, `toLocaleDateString`, `toLocaleTimeString`, `toISOString` and
  `URL.createObjectURL`: their results are parameters (`Stamp`, and the `id`, `uploadDate` and `fileUrl` arguments).
- `await` and `setTimeout`: modelled as the separate steps of `UploadForm`. The dialog is not
  modelled as unmounting before the delay elapses.
- The login form and the notifications page: no logic beyond calling the store's handlers.
- Text.Lower: folds ASCII letters only; Unicode case mapping is not modelled.
- Grouping.Accumulate: sections keep first-occurrence order. The rule that `Object.entries`
  lists integer-like keys (such as a subject "101") first, in numeric order, is not modelled.
- ProfessorDashboard.ApprovalRate: rounds the exact quotient `approved / total * 100`. The
  floating-point division and multiplication before `Math.round` are not modelled.
- ProfessorDashboard.SubjectDataMap: counts with a map, as if the accumulator had no
  inherited members. In the source, a subject that names an inherited property (such as
  "constructor") turns `(acc[s] || 0) + 1` into string concatenation. The grouping of the
  same documents already throws, as shown under Findings. `Object.keys` also lists
  integer-like subjects (such as "101") first, in ascending numeric order; the model keeps
  first-occurrence order for every subject.
- ProfessorDashboard.StatsBounds: the fourth card (`documents.length`) is not modelled.
- UploadModal.UploadForm.BeginSubmit: requires that no upload is in progress. The disabled
  submit button is the only thing keeping a second submission out; `EnabledClickSubmits` and
  `DisabledWhileInFlight` show that an enabled click meets the requirement and that the button
  stays disabled while a submission is in flight, but the browser's dispatch of the click is
  not modelled.
- App.Store.UpdateDocStatus: the source reads `documents` from the render's closure, not from
  the updated state. The model runs the handlers one after another, so both are the same
  list.
- The professor dashboard receives `onUpload` but never uses it, so professors cannot upload
  from there. `UploadModal` still handles the professor case, and the model keeps it.

## Findings

| source | as written | input that shows it | evidently intended | confidence | as-written member | corrected member |
|---|---|---|---|---|---|---|
| components/DashboardStudent.tsx:63-64 | `if (!acc[key]) acc[key] = []; acc[key].push(doc)` on an accumulator created as `{}`. For a key such as "constructor" or "toString", `acc[key]` is an inherited, truthy member of `Object.prototype`, so no array is created and `push` throws a TypeError. | A document whose subject is "constructor", with the default grouping by subject. The subject is free text typed in the upload dialog. The student dashboard throws on render. | Every key gets its own array, e.g. an accumulator with no prototype or an own-property check. | high (not executed) | Grouping.ReduceAsWrittenFails, StudentDashboard.ConstructorSubjectCrashes | Grouping.Accumulate |
| components/DashboardProfessor.tsx:70-71 | The same push into `{}` in `groupLibrary`. The library covers every document, so one such subject breaks the professor dashboard too. | A document whose subject is "toString", with the default grouping by subject. | Every key gets its own array. | high (not executed) | Grouping.ReduceAsWrittenFails, ProfessorDashboard.InheritedSubjectCrashes | Grouping.Accumulate |
