# Gradebook core in Dafny

A model of the local logic of a Vue/Supabase class-record gradebook. The
database, the AI chat service, the chart library and the browser's storage
are not modelled. Their answers reach the model as ordinary parameters:
rows or an error, a sequence of streamed chunks, a token flag and a stored
role, draws of `Math.random()`. The model covers:

- **Grades** (`grades.dfy`): the grade engine.
  - The written-work, performance-task and quality-assessment percentages,
    where a zero maximum gives 0.
  - The 0.4 / 0.4 / 0.2 weighted composite (the initial grade), which is not
    clamped.
  - The quarterly grade, which is the composite under ECMAScript
    `Math.round` (ties go toward +∞).
  - Scores are `real`, and a `null` topic counts as 0.
- **Router** (`router.dfy`): the route table with its meta fields, and the
  navigation guard.
  - The guard has five ordered rules. The first one that applies redirects;
    if none applies, the navigation passes.
  - `Settle` follows redirects with a hop bound, so redirect loops can be
    shown rather than ruled out by assumption.
- **Teachers** (`teachers.dfy`): the teacher directory.
  - Per-teacher shaping: the avatar, and no subjects when either lookup
    fails.
  - The case-insensitive search.
  - Pagination by eight, using `Array.prototype.slice` semantics.
- **Records** (`records.dfy`):
  - counting the `null` activity columns of each record;
  - building seeded score rows for a section's students;
  - the return rule for a student's initial grade.
- **FailureRate** (`failure_rate.dfy`): the pass/fail split at 75 behind the
  failure-rate chart. A `null` grade counts as failing (`null < 75` holds in
  JavaScript). An `undefined` grade is in neither group.
- **TeacherList** (`teacher_list.dfy`): grouping subject assignments by
  teacher, and merging them into the teacher rows.
- **Topics** (`topics.dfy`): where a subject's topics come from.
  - The topics table is consulted first.
  - Otherwise the bundled JSON file is used, after shape normalisation and a
    case-insensitive subject match.
  - The class-record filter rule.
- **ClassRecordStore** (`class_record.dfy`): how each store action moves the
  class-record list, the count, the roster, the loading flag and the error.
- **Markup** (`markup.dfy`): the reply formatter.
  - `\n` becomes `<br>`.
  - Then three global lazy regex replacements run, for `***`, `**` and `*`.
  - Each replacement is modelled as a left-to-right scan. At each position
    it takes the shortest match there; otherwise it copies one character. A
    match never crosses a line terminator, because the regex `.` does not
    match one.
  - The analytics panel and the student chat share this formatter. Their
    two copies are character-for-character identical, so the model has one
    definition. The teacher chat's formatter only replaces newlines.
- **Chat** (`chat.dfy`): the streaming folds that format each chunk and
  append it.
  - The analytics panels reset their text first.
  - The two chats never reset theirs.
  - The student chat also filters out blank topic names.
- **Common** (`common.dfy`) and **Text** (`text.dfy`) hold the shared
  pieces:
  - `Option`, `Result`, and a JavaScript `null`/`undefined`/number value;
  - an order-preserving `Filter`;
  - ASCII `toLowerCase`, `includes`, the ECMAScript `trim` whitespace set,
    and character counting.

  These members stand for JavaScript built-ins: `Common.Filter` is
  `Array.prototype.filter`; `Text.ToLower` is `String.prototype.toLowerCase`;
  `Text.Contains` is `String.prototype.includes`; `Text.Trim`, `Text.TrimStart`
  and `Text.TrimEnd` are `String.prototype.trim` and its two halves, with
  `Text.IsWhitespace` as their whitespace set.

## Model

| member | source | states |
|---|---|---|
| Grades.Percentage | src/composables/useGradeCalculations.js:7 | A zero maximum gives 0. Otherwise p · max = score · 100. p lies in [0, 100] when 0 ≤ score ≤ max, and exceeds 100 when the score exceeds a positive maximum. |
| Grades.WrittenPercent | src/composables/useGradeCalculations.js:4-8 | WWPS is 0 when the ten maxima sum to 0. Otherwise WWPS · Σmax = Σtopics · 100, with a null topic adding nothing. It lies in [0, 100] when the topic sum is within the maximum sum. |
| Grades.TaskPercent | src/composables/useGradeCalculations.js:10-14 | PTPS is 0 when ΣptMax = 0, and otherwise PTPS · ΣptMax = Σpt · 100. It lies in [0, 100] when Σpt is within ΣptMax. |
| Grades.QualityPercent | src/composables/useGradeCalculations.js:21-24 | QATS is 0 when qaMax1 = 0, and otherwise QATS · qaMax1 = qa1 · 100. It lies in [0, 100] when qa1 is within qaMax1. |
| Grades.TaskWeighted | src/composables/useGradeCalculations.js:16-19 | PTWS = 0.4 · PTPS, so PTWS · ΣptMax = Σpt · 40 when ΣptMax ≠ 0. It is at most 40 points when PTPS is in range, and it is zero exactly when PTPS is zero. |
| Grades.QualityWeighted | src/composables/useGradeCalculations.js:26-29 | QAWS = 0.2 · QATS, so QAWS · qaMax1 = qa1 · 20 when qaMax1 ≠ 0. It is at most 20 points when QATS is in range, and it is zero exactly when QATS is zero. |
| Grades.InitialGrade | src/composables/useGradeCalculations.js:31-36 | The initial grade is 0.4 · WWPS + 0.4 · PTPS + 0.2 · QATS, that is 0.4 · WWPS plus PTWS plus QAWS. It lies in [0, 100] when all three percentages do. |
| Grades.JsRound | src/composables/useGradeCalculations.js:39 | `Math.round(x)` is the integer n with n − ½ ≤ x < n + ½. |
| Grades.JsRoundUnique | src/composables/useGradeCalculations.js:39 | Any integer in that half-open window is the rounded value, so rounding is determined by the window. |
| Grades.JsRoundHalfUp | src/composables/useGradeCalculations.js:39 | k + ½ rounds to k + 1 and k − ½ rounds to k, for negative k too: ties go toward +∞. |
| Grades.QuarterlyGrade | src/composables/useGradeCalculations.js:38-40 | The quarterly grade is within ½ of the initial grade: q − ½ ≤ initial < q + ½. |
| Grades.NullTopicIsZero | src/composables/useGradeCalculations.js:5 | Replacing a null topic by an explicit 0 leaves the topic sum unchanged. |
| Grades.NullTopicPercent | src/composables/useGradeCalculations.js:4-8 | Hence WWPS cannot tell an ungraded topic from a zero. |
| Grades.TotalBounded | src/composables/useGradeCalculations.js:11-12 | Column-wise 0 ≤ score ≤ maximum carries over to the sums. |
| Grades.TaskPercentInRange | src/composables/useGradeCalculations.js:10-14 | If every task score is between 0 and its own maximum, PTPS lies in [0, 100]. |
| Grades.GradeInRange | src/composables/useGradeCalculations.js:31-40 | If each category's score sum is between 0 and its maximum sum, the initial grade and the quarterly grade both lie in [0, 100]. |
| Grades.AllMaximaZero | src/composables/useGradeCalculations.js:4-40 | If every maximum is 0, all three percentages, the initial grade and the quarterly grade are 0, whatever the scores. |
| Grades.UnclampedGrade | src/composables/useGradeCalculations.js:31-40 | Nothing clamps the grade. Topics scored above their maxima give WWPS 240, and an initial and quarterly grade of 114. |
| Router.Parse | src/router/index.ts:35-94 | Reading an address-bar string and printing the result gives back the same string. |
| Router.ParseText | src/router/index.ts:35-94 | Printing a path and reading it back gives the same path. Together with `Parse`, the two are inverse. |
| Router.MetaForGrouped | src/router/index.ts:35-94 | The first-match lookup in the twelve-route table gives: login only for newrecords, recentrecords and welcome; the teacher role for five pages; the admin role for three; no meta for "/", "/login", "/teacher_account" and unknown paths, which hit the catch-all. |
| Router.MetaFor | src/router/index.ts:35-94 | The meta of a navigation is the catch-all's empty meta or demands authentication. A role it names is "teacher" or "admin". |
| Router.Step | src/router/index.ts:101-136 | Redirects go only to "/", "/admin" or "/home". Without a token the navigation goes to "/" exactly when the route needs authentication. |
| Router.Guard | src/router/index.ts:101-136 | Redirects go only to "/", "/admin" or "/home". Rule 1: a page needing auth without a token goes to "/". Rule 2: a public page when logged in goes to the role home. Rule 3: a declared role that differs from the stored role goes to the role home. The navigation passes exactly when no rule applies, where rules 4 and 5 say the role is "admin" iff the path is an admin page. |
| Router.Settle | src/router/index.ts:101-136 | When redirects settle within the hop bound, the page reached passes the guard. |
| Router.AuthRequired | src/router/index.ts:114-117 | Without a token, every page of the table except "/" redirects to "/", whatever the stored role. |
| Router.LoggedInLeavesPublic | src/router/index.ts:119-121 | A logged-in user on "/" or "/login" goes to "/admin" with the admin role, and to "/home" otherwise. |
| Router.RoleMismatch | src/router/index.ts:123-125 | When logged in, a page whose declared role differs from the stored one redirects to the stored role's home. |
| Router.AdminConfined | src/router/index.ts:127-129 | The admin role, anywhere outside the four admin pages, is sent to "/admin", unless the page needs a token it lacks. |
| Router.AdminPagesGuarded | src/router/index.ts:131-133 | Any other role, or none, on an admin page is sent to "/home". It is sent to "/" instead when the page needs a token it lacks. |
| Router.HomesPass | src/router/index.ts:44-54 | The role homes are fixed points: a logged-in admin at "/admin" passes, and so does a logged-in teacher at "/home". |
| Router.LoggedInSettles | src/router/index.ts:101-136 | A logged-in admin or teacher reaches a rendered page from any start, after at most two redirects. |
| Router.LoggedOutSettles | src/router/index.ts:114-117 | Without a token, any role except admin settles within two redirects on a page that needs no authentication. |
| Router.LoggedOutAdminLoops | src/router/index.ts:114-129 | With the stored role "admin" and no token, "/" redirects to "/admin" and "/admin" redirects back to "/". No number of hops renders a page. |
| Router.UnknownRoleLoops | src/router/index.ts:123-125 | A logged-in user whose role is neither "admin" nor "teacher", or is absent, is redirected from "/home" to "/home" forever. |
| Teachers.Avatar | src/composables/useTeachers.ts:72 | The avatar is image_path when it is a non-empty string, and the default image otherwise. |
| Teachers.Shape | src/composables/useTeachers.ts:45-73 | A shaped teacher keeps its row and avatar. Its subjects are the looked-up titles, or [] when either the assignment or the title lookup failed. |
| Teachers.Initialize | src/composables/useTeachers.ts:35-77 | A failed or empty user query keeps the current list. Otherwise the list has one shaped entry per user row, in the same order. |
| Teachers.LookupFailuresAlike | src/composables/useTeachers.ts:45-73 | A failed assignment lookup, a failed title lookup and an empty title list give the same shaped teacher. |
| Teachers.InitializeKeepsRows | src/composables/useTeachers.ts:35-77 | Reading the user row back out of each entry of a freshly shaped list gives the fetched rows, in order. |
| Teachers.Search | src/composables/useTeachers.ts:79-86 | An empty query returns the list unchanged. A teacher is kept iff its lower-cased "first last" or email contains the lower-cased query. The result is an order-preserving subsequence, and a matching teacher occurs in it exactly as often as in the list. |
| Teachers.EmptyQueryMatchesAll | src/composables/useTeachers.ts:80-85 | The empty-query shortcut agrees with the filter, because every teacher matches "". |
| Teachers.TotalPages | src/composables/useTeachers.ts:88-90 | pages = ⌈n / 8⌉: the pages hold all n items, and the last page is not empty. |
| Teachers.SliceIndex | src/composables/useTeachers.ts:94 | A slice bound is clamped to [0, len], counting from the end when negative. An in-range bound is kept. |
| Teachers.JsSlice | src/composables/useTeachers.ts:94 | In-range bounds give the ordinary sub-sequence. A start at or past the end gives []. |
| Teachers.Page | src/composables/useTeachers.ts:92-95 | A page has at most 8 items. Pages 1..totalPages are non-empty and are the slice from (p−1)·8. Pages past the last, and page 0, are empty. |
| Teachers.PagesUpToPrefix | src/composables/useTeachers.ts:88-95 | Pages 1..k laid end to end are the first min(8k, n) items. |
| Teachers.PagesCoverList | src/composables/useTeachers.ts:88-95 | Pages 1..totalPages laid end to end are exactly the filtered list. |
| Records.CountNull | src/stores/recordsStore.ts:196-201 | The count is the length of the column list filtered by `=== null`, so a row with three null columns counts 3. It is at most the number of columns, 0 iff no listed column is null, and the full count iff every listed column is null. |
| Records.CountMissedActivities | src/stores/recordsStore.ts:167-208 | A query error gives null. Otherwise there is one entry per record, in order, with that record's student_id, and missedCount is the number of the sixteen activity columns that are `=== null` (the filtered column list's length). It is at most 16, and 0 iff none of them is null. |
| Records.OnlyNullIsMissed | src/stores/recordsStore.ts:197 | The test is strict `=== null`: for any checked columns, the sixteen activity columns included, setting a non-null column to 0, or removing it so that it reads undefined, does not change the count. |
| Records.CountNullSame | src/stores/recordsStore.ts:196-201 | Two rows that agree on which columns are null have the same count. |
| Records.RandomScore | src/stores/recordsStore.ts:100-101 | For a draw in [0, 1), getRandomScore(min, max) lies in [min, max]. |
| Records.FindTopics | src/stores/recordsStore.ts:94-96 | The result is the topics of the first entry whose subject equals the name exactly. With no name or no match it is []. |
| Records.BuildRecord | src/stores/recordsStore.ts:103-135 | The row carries the student's id and the class record id. topic k is set iff k < min(5, number of topics) and topic k is a non-empty name, and a set topic is in [50, 100]. pt_k lies in [its floor, 100], e.g. pt6 in [20, 100] and pt3 in [70, 100]. qa1 lies in [50, 100]. |
| Records.SubjectName | src/stores/recordsStore.ts:93 | A non-empty subject title is used as given. A missing or empty title falls back to the stored name, which may itself be missing. |
| Records.AddRecordsForSection | src/stores/recordsStore.ts:77-147 | A failed student query or a failed insert gives null. Otherwise there is exactly one row per student, in order, with the student's id and the class record id. |
| Records.FetchInitialGrade | src/stores/recordsStore.ts:149-165 | An error gives null. Otherwise the result is the first row's initial_grade when it is truthy, and 0 when there is no row or the value is falsy. |
| Records.InitialGradeNonZeroIff | src/stores/recordsStore.ts:149-165 | The result is non-zero iff the first row's grade is truthy, so 0 cannot tell no row from a null or zero grade. Only the first row matters. |
| FailureRate.FetchSectionData | src/composables/useFailureRate.ts:9-35 | An empty section code or subject id, a section that is not found, or a record query without data leaves the chart unchanged. Otherwise passing counts the grades ≥ 75 and failing counts the grades < 75, and together they are at most the row count. |
| FailureRate.PassFailDisjoint | src/composables/useFailureRate.ts:29-32 | passing + failing ≤ rows. The sum equals the row count when no grade is undefined. |
| FailureRate.BoundaryPasses | src/composables/useFailureRate.ts:30-31 | A grade of exactly 75 passes and does not fail; 74.999 fails and does not pass. |
| TeacherList.SubjectsOf | src/stores/teachersList.ts:54-63 | A subject is in a teacher's list iff some assignment row for that user carries it as {id: subject_id, title}. |
| TeacherList.GroupByUser | src/stores/teachersList.ts:54-63 | Every list in subjectsMap is non-empty, every key is the user of some row, and the last row's user is a key. |
| TeacherList.Lookup | src/stores/teachersList.ts:67 | A user in subjectsMap gets its list. Any other user gets []. |
| TeacherList.GroupByUserSpec | src/stores/teachersList.ts:54-63 | A user is in subjectsMap iff some row names it. The user's entry is exactly that user's rows, in row order, and a user with no rows gets []. |
| TeacherList.SubjectsOfAppend | src/stores/teachersList.ts:55-63 | Appending an assignment row extends only its own user's subject list. |
| TeacherList.FetchTeachersInfo | src/stores/teachersList.ts:26-72 | A failed teacher query empties userInfo and returns null. Otherwise teacherCount is the number of teacher rows. A failed subject query keeps the rows unchanged. An assignment row whose subject join is null makes the call reject after teacherCount is set, with userInfo unchanged. Otherwise each teacher, in order, gets exactly its assigned subjects. |
| TeacherList.MergeMatchesRows | src/stores/teachersList.ts:65-68 | Looking each teacher up in subjectsMap, with `|| []`, gives exactly that teacher's assignment rows. |
| TeacherList.Ids | src/stores/teachersList.ts:42 | teacherIds has one id per teacher row, in order. |
| TeacherList.SubjectsConserved | src/stores/teachersList.ts:43-68 | With distinct teacher ids, the subjects attached across all teachers number exactly the assignment rows whose user is one of the teachers. |
| Text.ToLower | src/composables/useTeachers.ts:83-84 | Lower-casing keeps the length and lower-cases each ASCII letter in place. |
| Text.TrimStart | src/composables/bootstrap.ts:30 | The result is a suffix whose first character is not whitespace, and everything dropped is whitespace. |
| Text.TrimEnd | src/composables/bootstrap.ts:30 | The result is a prefix whose last character is not whitespace, and everything dropped is whitespace. |
| Text.TrimEmptyIff | src/composables/bootstrap.ts:30 | `trim()` gives "" iff every character is whitespace. |
| Topics.ClassRecordFilter | src/pages/home/axios/fetchTopics.ts:29 | A falsy class record id (absent or 0) filters on null. Any other id is kept. |
| Topics.FetchTopicsFromDb | src/pages/home/axios/fetchTopics.ts:22-42 | The query uses the subject and the filtered class record. An error gives []; otherwise the titles come back in row order. |
| Topics.FetchTopicsFromJson | src/pages/home/axios/fetchTopics.ts:74-91 | An array is returned as it is, and any other object becomes a one-item list. Anything else, or a failed fetch, gives []. |
| Topics.FetchTopicsFromJsonIdempotent | src/pages/home/axios/fetchTopics.ts:74-91 | The normalised list is a fixed point: normalising it again as an array response gives it back. |
| Topics.FindSubject | src/pages/home/axios/fetchTopics.ts:125-128 | The result is the first item whose subject is a non-empty string equal to the name up to case. It is none iff no item matches. |
| Topics.TopicsFromJson | src/pages/home/axios/fetchTopics.ts:125-136 | A match whose topics is an array gives those topics. No match, or non-array topics, gives []. |
| Topics.GetTopicsForSubject | src/pages/home/axios/fetchTopics.ts:100-141 | When a subject id is present (0 included) and the table has topics, the result is those titles. Otherwise it is the JSON fallback. |
| Topics.JsonNotConsulted | src/pages/home/axios/fetchTopics.ts:107-112 | When the table has topics, any two JSON responses give the same result. |
| Topics.DbNotConsultedWithoutId | src/pages/home/axios/fetchTopics.ts:107 | Without a subject id, any two databases give the same result. |
| Topics.ZeroClassRecordIsNull | src/pages/home/axios/fetchTopics.ts:29 | A class record id of 0 queries the same rows as no class record id. |
| Topics.FindIgnoresCase | src/pages/home/axios/fetchTopics.ts:127 | The lookup gives the same item for a name and for its lower-cased form. |
| Topics.EmptyNameMatchesNothing | src/pages/home/axios/fetchTopics.ts:125-128 | An empty subject name finds no topics. |
| Topics.SingleObjectIsSearched | src/pages/home/axios/fetchTopics.ts:80-84 | A topics file holding one subject object that is not wrapped in an array is still found. |
| ClassRecordStore.Begin | src/stores/classRecord.ts:15-16 | Every action starts by setting loading and clearing the error, and changes nothing else. |
| ClassRecordStore.FetchClassRecords | src/stores/classRecord.ts:14-25 | On success the list is replaced and the count follows it. On failure only the error is set. Loading ends false either way. |
| ClassRecordStore.Detail | src/stores/classRecord.ts:38-46 | A detailed row is shown iff its subject, section and user joins are all present; reading through a null join throws. A shown row keeps its id and quarter, its student count is the number of its score rows, and it names the subject title, section code and teacher e-mail. |
| ClassRecordStore.FetchAllClassRecordsWithDetails | src/stores/classRecord.ts:26-49 | On success with every join present there is one record per row, in the order returned: exactly the row's `Detail`, with its id, quarter, student count, subject, section and e-mail. A null join makes the action reject with loading still true and the list unchanged. The count field is never touched. On failure the list stays and the error is set. |
| ClassRecordStore.FetchStudentsByClassRecord | src/stores/classRecord.ts:50-66 | On success the roster is each row's student with that row's section id, in row order. A row whose student join is null gives an entry with only the section id. On failure the roster stays and the error is set. |
| ClassRecordStore.AddClassRecord | src/stores/classRecord.ts:67-129 | With no stored teacher id (absent or ""), the error is set and nothing is inserted or navigated. Otherwise the insert is made and navigation to "/newrecords" happens even after an error. The error is the insert error, else the read-back error, else "Failed to fetch recent class record ID." when no row came back, else the link error. The newest id is stored and the section-subject link tried exactly when the read-back found a row. The error is cleared iff every step succeeded. |
| ClassRecordStore.DeleteClassRecord | src/stores/classRecord.ts:130-146 | On success no remaining record has the id, every other record is kept in order, and the count equals the new length. On failure the list and count stay and the error is set. |
| ClassRecordStore.DeleteAbsentKeepsList | src/stores/classRecord.ts:140-142 | Deleting an id that is not listed keeps the list. |
| ClassRecordStore.DeleteIdempotent | src/stores/classRecord.ts:130-146 | Deleting the same id twice is the same as deleting it once. |
| ClassRecordStore.DeleteCount | src/stores/classRecord.ts:140-143 | The kept records plus the records with the id make up the whole list. |
| ClassRecordStore.DeleteListedDropsOne | src/stores/classRecord.ts:140-143 | With unique ids, deleting a listed id lowers the count by exactly one. |
| ClassRecordStore.FetchClassRecordsSyncs | src/stores/classRecord.ts:14-25 | A successful fetch brings classRecordCount back to the list's length; a failed one keeps it in step iff it was. |
| ClassRecordStore.DeleteSyncs | src/stores/classRecord.ts:130-146 | A successful delete leaves classRecordCount equal to the list's length; a failed one keeps it in step iff it was. |
| ClassRecordStore.OtherActionsKeepSync | src/stores/classRecord.ts:50-129 | The roster fetch and addClassRecord keep the count in step with the list iff it was. |
| ClassRecordStore.DetailsLeaveCountStale | src/stores/classRecord.ts:26-49 | After a successful detailed load the count matches the list iff it already equalled the number of rows: the action replaces the list but not the count. |
| ClassRecordStore.DetailsBreakSync | src/stores/classRecord.ts:26-49 | One listed record with count 1, then a detailed load of two rows, leaves the count at 1 for a list of 2. |
| Markup.ReplaceNewlines | src/composables/performanceAnalytics.ts:13 | The output contains no "\n". |
| Markup.ReplaceNewlinesCounts | src/composables/pusher.ts:18 | Output length = input length + 3 · (number of "\n"). The number of '*' is unchanged. |
| Markup.NewlineFreeUnchanged | src/composables/pusher.ts:18 | Input with no newline is returned unchanged, '*' included. |
| Markup.ReplaceNewlinesAppend | src/composables/pusher.ts:18 | f(a ++ b) = f(a) ++ f(b). |
| Markup.FindClose | src/composables/performanceAnalytics.ts:14-16 | The lazy `(.*?)` body ends at the first place where the closing run starts. No line terminator and no earlier closing run comes before it. When there is no match, every later closing run has a line terminator before it. |
| Markup.MatchAt | src/composables/performanceAnalytics.ts:14-16 | A match needs an opening run at the start, and the closing run sits right after the captured body. The body is the shortest one: none of its characters is a line terminator or starts a closing run. No match with an opening run means every later closing run has a line terminator before it. |
| Markup.ReplaceLazy | src/composables/performanceAnalytics.ts:14-16 | Every output character comes from the input or from the markup inserted. The empty text gives the empty text. Where a match starts, the output begins with the markup around the captured body. |
| Markup.ReplaceAtMatch | src/composables/performanceAnalytics.ts:14-16 | At a match the scan emits the markup around the body and resumes right after the closing run. |
| Markup.ReplaceNoMatch | src/composables/performanceAnalytics.ts:14-16 | Where no match starts, the scan copies that character and resumes at the next one. |
| Markup.Triple | src/composables/performanceAnalytics.ts:14 | A text without '*' passes unchanged. The output uses only the input's characters and those of `<strong><em>` and `</em></strong>`. |
| Markup.Double | src/composables/performanceAnalytics.ts:15 | A text without '*' passes unchanged. The output uses only the input's characters and those of `<strong>` and `</strong>`. |
| Markup.Single | src/composables/performanceAnalytics.ts:16 | A text without '*' passes unchanged. The output uses only the input's characters and those of `<em>` and `</em>`. |
| Markup.FormatResponse | src/composables/performanceAnalytics.ts:11-17 | The formatted reply contains no "\n". |
| Markup.FormatNewlinesOnly | src/composables/pusher.ts:17-19 | The output has no "\n", and its length is the input length + 3 · (number of "\n"). |
| Markup.NoMatchUnchanged | src/composables/performanceAnalytics.ts:14-16 | A replacement that matches at no position leaves the text unchanged. |
| Markup.NoDelimiterUnchanged | src/composables/performanceAnalytics.ts:14-16 | Text without the delimiter's first character passes a replacement unchanged. |
| Markup.PlainTextUnchanged | src/composables/performanceAnalytics.ts:11-17 | A string with no '*' and no "\n" is returned unchanged. |
| Markup.OneStarNoMatch | src/composables/performanceAnalytics.ts:14-16 | Text with at most one '*' matches no pattern, since each needs an opening and a closing run. |
| Markup.SingleStarKept | src/composables/performanceAnalytics.ts:11-17 | With at most one '*', formatting only replaces newlines and the star stays. |
| Markup.WrappedReplaced | src/composables/performanceAnalytics.ts:14-16 | A delimiter-wrapped text with no '*' and no line terminator becomes the markup around that text. |
| Markup.BoldItalic | src/composables/performanceAnalytics.ts:14 | "\*\*\*x\*\*\*" becomes `<strong><em>x</em></strong>`. |
| Markup.Bold | src/composables/performanceAnalytics.ts:15 | "\*\*x\*\*" becomes `<strong>x</strong>` for every plain x, the empty one included, with no stray `<em>`: the triple pass finds nothing, and the bold pass runs before the italic one. |
| Markup.EmptyBold | src/composables/performanceAnalytics.ts:14-16 | "\*\*\*\*" becomes `<strong></strong>`: no run of three stars is closed, and the bold pass takes the whole text with an empty body. |
| Markup.Italic | src/composables/performanceAnalytics.ts:16 | "\*x\*" becomes `<em>x</em>` for every plain x, the empty one included. |
| Markup.EmptyItalic | src/composables/performanceAnalytics.ts:14-16 | "\*\*" becomes `<em></em>`: it is too short for the triple and bold passes, and the italic pass matches it with an empty body. |
| Markup.NoMatchAcrossLines | src/composables/performanceAnalytics.ts:14-16 | Emphasis does not span a carriage return or a Unicode line or paragraph separator: such a reply stays raw. |
| Chat.Content | src/composables/performanceAnalytics.ts:54 | A chunk without content reads as "". |
| Chat.Stream | src/composables/performanceAnalytics.ts:53-56 | The fold only appends: the starting text remains a prefix. |
| Chat.StreamIsConcat | src/composables/performanceAnalytics.ts:53-56 | The fold leaves the starting text followed by every formatted chunk, in stream order. |
| Chat.Analyze | src/composables/performanceAnalytics.ts:29-56 | When the completion request is rejected, the analysis keeps its previous text. When it succeeds, the analysis is the concatenation of the formatted chunks. |
| Chat.AnalyzeResets | src/composables/performanceAnalytics.ts:29-56 | After a successful request the previous analysis plays no part. After a rejected one it is all that remains. |
| Chat.StudentChat | src/composables/bootstrap.ts:60-63 | The student chat is never reset: after a run it is the old content followed by the formatted chunks. |
| Chat.TeacherChat | src/composables/pusher.ts:47-50 | The teacher chat is never reset: after a run it is the old content followed by the newline-formatted chunks. |
| Chat.NoNewlineInReply | src/composables/bootstrap.ts:19 | No formatted reply contains "\n", with either formatter. |
| Chat.NewlinesChunkingInvisible | src/composables/pusher.ts:47-50 | For the newline-only formatter, formatting chunk by chunk equals formatting the whole reply. |
| Chat.TeacherChatIsWholeReply | src/composables/pusher.ts:47-50 | Hence the teacher chat ends as the old content followed by the whole reply with its newlines replaced. |
| Chat.SplitMarkupStaysRaw | src/composables/performanceAnalytics.ts:52-56 | An italic span split over two chunks stays raw, while the same reply in one chunk is marked up. |
| Chat.ValidTopicNames | src/composables/bootstrap.ts:30 | The kept names are an order-preserving subsequence. A name is kept iff it has a non-whitespace character, and every copy of a kept name stays: each name occurs as often as in the input when it is not blank, and never when it is. |

## Left out

- Supabase queries, inserts, deletes and auth calls, including server-side
  filters such as `.eq`, `.in` and `.order`. Their results, or an error,
  are parameters.
- The Groq chat-completion calls. The streamed reply is a given sequence of
  chunk contents.
- The prompt texts, and the band labels written into them; no band
  classifier exists in the code.
- ECharts chart setup, update, resize and dispose.
- The toast and dialog UI, and logout.
- `localStorage`:
  - the guard sees it only as a token flag and a stored role;
  - addClassRecord sees the teacher id as an input and its write of the new
    id as an output field;
  - addRecordsForSection sees the stored subject name as an input.
- The dynamic-import reload handler of the router, and the app bootstrap
  and theme setup.
- Route matching is by exact, case-sensitive path strings: the table, the
  public and admin page lists, and the catch-all. vue-router matches paths
  case-insensitively and ignores a trailing slash, so in the app "/Admin"
  hits the /admin route and its admin meta, while `Router.Parse("/Admin")`
  is an unknown path and `Router.Guard` lets a logged-in teacher pass there.
  Query strings are not modelled either.
- The pure CRUD stores are not part of this model: authUser, sectionsStore,
  subjectsStore, studentsStore, userInfo, updateTopics and countAllStudents.
  The same holds for recordsStore's other fetches and fetchTopics'
  getTopicIdsByClassRecord.
- IEEE-754 floating point: scores and grades are `real`.
  - Float rounding is abstracted away.
  - NaN is not modelled. The stored `Record` type has no maxima columns, so
    in the app those maxima would sum to NaN, which is falsy, and the
    category would collapse to 0.
  - An `undefined` initial grade is the one NaN-like case kept, because its
    comparisons are false.
- `Math.random()`: draws in [0, 1) are a parameter.
- `toLowerCase` is modelled for ASCII letters only. `trim` uses the
  ECMAScript whitespace set.
- Topics.GetTopicsForSubject: the `Array.isArray` check after the JSON
  fetch is not modelled, because the normalised result is always an array.
  The `catch` branches are covered by the error inputs.
- Topics.FindSubject: the topics and subject names are strings; `null`
  entries in a topic list are not modelled.
- ClassRecordStore.Detail: the `students: record.students` field is not
  modelled, because the detailed query does not select students.
- ClassRecordStore.AddClassRecord: the inserted row's contents and the
  selected quarter, subject and section are not modelled. Only whether the
  insert happened is recorded.
- ClassRecordStore.Detail: a join that is present but whose title, code or
  e-mail is itself `null` is not told apart from a present value; only a
  `null` join, which throws, is modelled.
- TeacherList.FetchTeachersInfo: the rejection is an outcome of the model;
  the partly built subjectsMap it abandons is local and not modelled.
- Chat.Analyze: a stream that fails part-way, leaving the chunks formatted
  so far, is not modelled: the chunk sequence is complete or the request
  is rejected. Two overlapping runs appending to the same ref, which would
  interleave their chunks, are not modelled either.
- Chat.ValidTopicNames: topic names are strings, so the `topic &&` test is
  folded into the empty-string check. `null` names are not modelled.
- Router.Settle: redirects are followed up to a hop bound, which the loop
  lemmas quantify over.
