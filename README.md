# Learning platform API core, modelled in Dafny

This project models the rules behind the learning platform's API routes and
one piece of its dashboard UI:

- **Lesson progress** (`POST /api/lesson-progress`): validate the request,
  require a published lesson, then upsert the single `(user, lesson)` progress
  row. When the lesson is reported completed, the completion cascade marks the
  enrollment completed (only while its `completed_at` is still null) and issues
  a certificate unless one exists. `GET /api/lesson-progress` builds a
  parameterised statement with `$1` and an optional `$2`.
- **Enrollments** (`POST /api/enrollments`): the 400 / 404 / 409 exits, then
  an insert. `GET /api/enrollments` lists the user's enrollments in published
  courses, newest first, with the rounded progress percentage.
- **User dashboard** (`GET /api/user-dashboard`):
  - the three stats counts, as the route intends them (the code as written reads 0, 0, 0; see Findings);
  - the twelve most recent course enrollments with their percentage;
  - the eight earliest webinars, each with its `can_join_now` / `hasJoinButton` flag.
- **Courses** (`GET /api/courses`): the listing statement with optional
  category and search filters and LIMIT/OFFSET placeholders, numbered from
  `$1`. `POST /api/courses` checks the required fields and inserts a course.
- **Countdown timer** (`RecentEnrolledWebinars.jsx`): the
  `(hours, minutes, seconds)` tick that the one-second interval applies, and
  the two-character `formatTime` padding.

The store is a value `Tables.Tables`:

- Tables keyed by their primary key (courses, lessons, webinars) are maps.
- Lesson progress, enrollments and certificates are sequences of rows. The
  route handlers, not a key, enforce their "one row per pair" rule, and the
  model proves they keep it (`Tables.Tables.Valid`).

Each state-changing handler has two forms:

- a function on the store value (`LessonProgressRoute.Record`,
  `EnrollmentsRoute.Enroll`, `CoursesRoute.CreateCourse`), which the lemmas
  are about;
- a method that performs the same steps in place on a `Tables.Database`
  object. Its postcondition says the new contents and the response equal
  those of the function.

The query builders are methods that grow the statement and its parameter list
step by step, as the routes do. A statement is a sequence of tokens, each a
route-specific SQL fragment or a numbered placeholder. `Query.Binds` states
that the placeholders are numbered consecutively from `$1` and that the
highest one is the number of parameters.

Modules:

- `Wrappers`: Option, the HTTP response, status codes.
- `Text`: `String(n)` and `padStart`.
- `Tables`: rows, store, counts, `Database`.
- `Ordering`: insertion sort by a total preorder; first-k.
- `Query`: statements with placeholders.
- `CourseStats`: the percentage rule and the per-course progress row.
- `LessonProgressRoute`, `EnrollmentsRoute`, `Dashboard`, `CoursesRoute`,
  `WebinarCountdown`.

Two behaviours of the code are modelled as written:

- A progress update always rewrites `completed_at`. A completed report stores
  the current clock reading again, and a non-completed report clears it.
- The cascade's course-progress query is restricted to the lesson just
  reported (`WHERE l.id = lessonId`). Its lesson count is therefore the number
  of joined rows for that one lesson, which is 1, and so is its completed count
  after a completed report. So every completed report on a lesson whose course
  row exists runs the cascade, whatever the state of the course's other lessons
  (`LessonProgressRoute.RecordCompletedCascades`). The comment next to the
  query describes an "all lessons of the course" check that the code does not
  perform.

## Model

| member | source | states |
|---|---|---|
| LessonProgressRoute.Record | apps/web/src/app/api/lesson-progress/route.js:14-31 | 400 exactly when userId or lessonId is missing or 0; 404 exactly when they are given and the lesson is absent or unpublished; success exactly when both are given and the lesson exists and is published; every failure leaves the whole store unchanged; success answers 200 with the row for (userId, lessonId); courses, lessons and webinars are never touched |
| LessonProgressRoute.RecordStoresOneRow | apps/web/src/app/api/lesson-progress/route.js:36-67 | after a successful report there is exactly one progress row for (user, lesson) and it is the returned row; the rows of every other pair are unchanged and in order; watched minutes are the supplied value or 0; completed_at is the clock reading iff completed, otherwise null |
| LessonProgressRoute.UpsertLeavesOneRow | apps/web/src/app/api/lesson-progress/route.js:42-67 | the UPDATE-or-INSERT keeps one row per (user, lesson) pair, leaves exactly one row for the reported pair, equal to the new row, and counts it completed iff the new row is |
| LessonProgressRoute.UpsertKeepsOtherRows | apps/web/src/app/api/lesson-progress/route.js:46-66 | the upsert leaves the rows of every other (user, lesson) pair unchanged and in order |
| LessonProgressRoute.UpdateMatchingKeepsKeys | apps/web/src/app/api/lesson-progress/route.js:46-55 | the UPDATE ... WHERE user_id AND lesson_id rewrites exactly the rows of the reported pair and keeps every row's pair |
| LessonProgressRoute.UpdateMatchingCounts | apps/web/src/app/api/lesson-progress/route.js:46-55 | the UPDATE keeps the number of rows of the pair, and afterwards all or none of them are completed, following is_completed |
| LessonProgressRoute.CountProgressUnique | apps/web/src/app/api/lesson-progress/route.js:36-42 | in a table with one row per pair, the existence check finds at most one row |
| Tables.CountProgress | apps/web/src/app/api/lesson-progress/route.js:36-42 | the number of rows of a (user, lesson) pair is positive exactly when the existence check finds a row |
| LessonProgressRoute.UpdateMatching | apps/web/src/app/api/lesson-progress/route.js:46-55 | the UPDATE neither adds nor removes rows |
| LessonProgressRoute.Upsert | apps/web/src/app/api/lesson-progress/route.js:42-67 | afterwards the pair has a row; the table keeps its length when the pair had a row and grows by one otherwise |
| LessonProgressRoute.LessonCourseCounts | apps/web/src/app/api/lesson-progress/route.js:71-83 | the course-progress query returns a row exactly when the lesson and its course exist; the row names the lesson's course, its lesson count is at least 1 and no smaller than its completed count, and is exactly 1 when the table has one row per pair |
| LessonProgressRoute.Cascade | apps/web/src/app/api/lesson-progress/route.js:70-106 | the cascade leaves progress, courses, lessons and webinars alone; without a course-progress row it changes nothing; otherwise it either changes nothing or completes the enrollments and issues the certificate for the lesson's course |
| LessonProgressRoute.CompleteEnrollments | apps/web/src/app/api/lesson-progress/route.js:88-92 | the UPDATE keeps the number of rows and each row's user, course and enrollment time |
| LessonProgressRoute.IssueCertificate | apps/web/src/app/api/lesson-progress/route.js:95-104 | afterwards the (user, course) certificate exists; the old rows are kept as a prefix and at most one row is added |
| LessonProgressRoute.RecordIncompleteLeavesCourseTables | apps/web/src/app/api/lesson-progress/route.js:70 | a report that is not completed leaves enrollments and certificates unchanged |
| LessonProgressRoute.RecordCompletedCascades | apps/web/src/app/api/lesson-progress/route.js:70-106 | a completed report whose lesson's course row exists yields counts 1 = 1 for that lesson, then completes the user's enrollment in the course and issues the certificate |
| LessonProgressRoute.RecordWithoutCourseRowLeavesCourseTables | apps/web/src/app/api/lesson-progress/route.js:71-83 | when the lesson's course row is missing, the course-progress query returns no row and enrollments and certificates stay unchanged |
| LessonProgressRoute.CompleteEnrollmentsAt | apps/web/src/app/api/lesson-progress/route.js:88-92 | the UPDATE sets completed_at to the clock reading exactly on the rows of (user, course) whose completed_at is null; every other row is unchanged |
| LessonProgressRoute.CompleteEnrollmentsSetsOnce | apps/web/src/app/api/lesson-progress/route.js:88-92 | an existing completion time is never changed; afterwards every (user, course) row is completed; repeating the UPDATE at a later time changes nothing |
| LessonProgressRoute.CompleteEnrollmentsKeepsUnique | apps/web/src/app/api/lesson-progress/route.js:88-92 | the UPDATE keeps one enrollment per (user, course) |
| LessonProgressRoute.IssueCertificateKeepsOne | apps/web/src/app/api/lesson-progress/route.js:95-104 | the certificate step keeps at most one certificate per (user, course); afterwards one exists; if one existed the table is unchanged, otherwise exactly the new one is appended; repeating it changes nothing |
| LessonProgressRoute.CertificateUrlShape | apps/web/src/app/api/lesson-progress/route.js:99-103 | for non-negative ids the inserted certificate URL is exactly "https://certificates.example.com/user-", the user id's decimal digits, "-course-", the course id's decimal digits and ".pdf" |
| LessonProgressRoute.DigitsBetweenPieces | apps/web/src/app/api/lesson-progress/route.js:102 | in a string built as prefix, decimal u, separator, decimal c, suffix, the prefix and suffix sit at its ends and u and c read back from the two digit stretches |
| LessonProgressRoute.RecordKeepsValid | apps/web/src/app/api/lesson-progress/route.js:36-104 | the whole POST keeps the store's rules: one progress row, one enrollment and one certificate per pair |
| LessonProgressRoute.RecordTwice | apps/web/src/app/api/lesson-progress/route.js:36-104 | repeating the same report leaves enrollments and certificates as the first report left them and does not add a progress row; the second report re-applies the upsert with its own clock reading |
| LessonProgressRoute.PostLessonProgress | apps/web/src/app/api/lesson-progress/route.js:4-113 | the in-place handler leaves the database and returns the response exactly as Record describes |
| LessonProgressRoute.ProgressListQuery | apps/web/src/app/api/lesson-progress/route.js:124-158 | 400 exactly when userId is missing; otherwise the statement filters by user with $1, adds the course filter with $2 iff courseId is given, ends with the ORDER BY, and binds exactly its parameters |
| EnrollmentsRoute.Enroll | apps/web/src/app/api/enrollments/route.js:4-51 | 400 iff an id is missing or 0; 404 iff the course is absent or unpublished; 409 iff the pair is already enrolled; success iff both ids are given, the course exists and is published, and the pair is not enrolled; every failure leaves the store unchanged; success answers 201 with the new enrollment and appends exactly that row |
| EnrollmentsRoute.EnrollKeepsOnePerPair | apps/web/src/app/api/enrollments/route.js:28-45 | enrolling keeps one enrollment per (user, course) and the store's rules; a success adds the pair, which was absent before, and raises the user's enrollment count by one |
| EnrollmentsRoute.EnrollTwiceConflicts | apps/web/src/app/api/enrollments/route.js:29-38 | enrolling the same pair again answers 409 and changes nothing |
| Tables.CountOwnedByAppend | apps/web/src/app/api/enrollments/route.js:41-45 | an inserted row raises its owner's per-user count by one and no other user's |
| EnrollmentsRoute.PostEnrollment | apps/web/src/app/api/enrollments/route.js:4-51 | the in-place handler leaves the database and returns the response exactly as Enroll describes |
| EnrollmentsRoute.ListEnrollments | apps/web/src/app/api/enrollments/route.js:62-106 | 400 exactly when userId is missing; otherwise the user's enrollments in published courses, newest first, each with progress equal to its percentage and at most 100 |
| CourseStats.Percentage | apps/web/src/app/api/enrollments/route.js:85-89 | 0 when there are no lessons; otherwise the integer nearest to completed*100/total, with halves rounded up |
| CourseStats.PercentageAtMostHundred | apps/web/src/app/api/enrollments/route.js:85-89 | the percentage is at most 100 when completed <= total |
| CourseStats.PercentageAllDone | apps/web/src/app/api/user-dashboard/route.js:57-61 | all lessons completed gives exactly 100 |
| CourseStats.TwoOfThree | apps/web/src/app/api/user-dashboard/route.js:57-61 | 2 of 3 lessons gives 67 |
| CourseStats.HundredBeforeCompletion | apps/web/src/app/api/user-dashboard/route.js:57-61 | rounding shows 100 before the course is complete (200 of 201) |
| CourseStats.CompletedLessons | apps/web/src/app/api/enrollments/route.js:83-84 | the completed lessons counted for a course are among its lessons, so the completed count never exceeds the lesson count |
| CourseStats.ProgressRowFor | apps/web/src/app/api/enrollments/route.js:83-105 | a listed course's row keeps the enrollment's course and time; total is the number of the course's lessons and completed the number of those the user completed, so completed <= total; progress equals the percentage, lies in 0..100, is 0 without lessons and 100 when every lesson is completed |
| CourseStats.ListedEnrollments | apps/web/src/app/api/enrollments/route.js:90-95 | an enrollment is listed exactly when it is the user's and its course exists and is published |
| CourseStats.EnrolledCourseRows | apps/web/src/app/api/user-dashboard/route.js:49-67 | one progress row per listed enrollment and nothing else, as many rows as listed enrollments |
| CourseStats.LaterFirstIsTotalPreorder | apps/web/src/app/api/enrollments/route.js:97 | ORDER BY enrolled_at DESC is a total preorder, so sorting by it is well defined |
| Dashboard.DashboardUser | apps/web/src/app/api/user-dashboard/route.js:7 | an absent userId defaults to user 1; a given one is used as is |
| Dashboard.CompletedCourseIds | apps/web/src/app/api/user-dashboard/route.js:19-28 | the completed courses are among the user's enrolled courses |
| Dashboard.CompletedCoursesAreFullyDone | apps/web/src/app/api/user-dashboard/route.js:19-28 | a course counts as completed iff the user is enrolled in it, it exists, it has at least one lesson and every one of its lessons has a completed row; a course without lessons never counts |
| Dashboard.CompletedAtMostTotal | apps/web/src/app/api/user-dashboard/route.js:43-44 | completedCourses <= totalCourses |
| Tables.CountOwnedBy | apps/web/src/app/api/user-dashboard/route.js:12-16 | a per-user COUNT(*) is at most the number of rows and positive exactly when the user owns a row |
| Dashboard.ComputeStats | apps/web/src/app/api/user-dashboard/route.js:10-45 | the intended statistics: enrollment and certificate counts within their tables, positive exactly when the user has such a row, and completed courses at most the enrolled courses |
| Dashboard.StatsAsWrittenAreZero | apps/web/src/app/api/user-dashboard/route.js:10-45 | destructuring the transaction's first result and indexing into it reads 0, 0 and 0 whatever the store holds |
| Dashboard.StatsIntendedAreComputeStats | apps/web/src/app/api/user-dashboard/route.js:43-45 | reading the four results by position gives exactly ComputeStats |
| Dashboard.StatsAsWrittenLoseEnrollments | apps/web/src/app/api/user-dashboard/route.js:10-43 | a user with an enrollment reads 0 courses as written and a positive count as intended |
| Tables.EnrollmentCountIsCourseCount | apps/web/src/app/api/user-dashboard/route.js:12-16 | with one enrollment per pair, totalCourses equals the number of distinct enrolled courses |
| Dashboard.CompletedCourseShowsFullProgress | apps/web/src/app/api/user-dashboard/route.js:19-28 | a course counted as completed shows 100 in the user's course list |
| Dashboard.JoinWindow | apps/web/src/app/api/user-dashboard/route.js:78-82 | can_join_now holds only on the scheduled day; that day some time qualifies iff the webinar does not end before it starts, and then its start and end times both qualify |
| Dashboard.WebinarRows | apps/web/src/app/api/user-dashboard/route.js:74-92 | no more rows than webinar enrollments; each row carries the fields of an existing webinar and flags computed from it and the clock |
| Dashboard.WebinarRowsMembers | apps/web/src/app/api/user-dashboard/route.js:90-92 | a row is listed exactly when it comes from one of the user's enrollments in an existing webinar |
| Dashboard.EarlierFirstIsTotalPreorder | apps/web/src/app/api/user-dashboard/route.js:93 | ORDER BY scheduled_date, start_time ASC is a total preorder |
| Dashboard.RecentCourses | apps/web/src/app/api/user-dashboard/route.js:49-70 | at most 12 course rows, newest first, drawn from the user's rows, and no row left out is newer than one kept |
| Dashboard.EarliestWebinars | apps/web/src/app/api/user-dashboard/route.js:74-95 | at most 8 webinars in (date, start time) order, drawn from the user's webinars, none left out earlier than one kept; hasJoinButton == can_join_now == (scheduled today and start <= now <= end) |
| Dashboard.GetDashboard | apps/web/src/app/api/user-dashboard/route.js:4-124 | the dashboard for the defaulted user: the three counts as intended (ComputeStats), the recent courses and the earliest webinars |
| Ordering.TopK | apps/web/src/app/api/user-dashboard/route.js:68-70 | the first k of a sorted sequence are sorted, min(k, n) in number, drawn from the input, and precede everything left out |
| Ordering.SortSorted | apps/web/src/app/api/enrollments/route.js:97 | sorting by a total preorder yields a sorted sequence |
| Ordering.Sort | apps/web/src/app/api/enrollments/route.js:97 | sorting keeps exactly the input rows (same multiset) |
| CoursesRoute.ParsedOr | apps/web/src/app/api/courses/route.js:9-10 | an absent, unparsable or zero limit/offset falls back to its default; any other value is used |
| CoursesRoute.SearchPattern | apps/web/src/app/api/courses/route.js:37 | the search parameter is the term wrapped in % on both sides |
| CoursesRoute.FilteredSelect | apps/web/src/app/api/courses/route.js:12-39 | each present filter appends one clause and one parameter under the next placeholder index; the statement binds its parameters |
| CoursesRoute.CoursesQuery | apps/web/src/app/api/courses/route.js:12-42 | placeholders numbered from $1 bind exactly the parameters; the parameters are the present filters, the limit and the offset; the statement ends with GROUP BY / ORDER BY / LIMIT $n-1 / OFFSET $n |
| CoursesRoute.Filters | apps/web/src/app/api/courses/route.js:29-39 | the category clause appears iff category is non-empty, the search clause iff search is non-empty; two tokens for the category filter and five for the search filter |
| Query.EveryParamReferenced | apps/web/src/app/api/courses/route.js:41-42 | a statement that binds its parameters refers to every one of $1..$n |
| Query.BindNext | apps/web/src/app/api/courses/route.js:29-33 | appending a clause under the next index with one more parameter keeps the statement bound |
| Query.BindNextTwo | apps/web/src/app/api/courses/route.js:41-42 | appending LIMIT $n+1 OFFSET $n+2 with two more parameters keeps the statement bound |
| CoursesRoute.CreateCourse | apps/web/src/app/api/courses/route.js:61-96 | 400 with no insert iff title or instructor is missing or empty; otherwise 201 with the new course under the next id, published only when is_published is true |
| CoursesRoute.CreateCourseAddsOne | apps/web/src/app/api/courses/route.js:83-91 | creating a course adds exactly one course under an id no course had, keeps the store's rules and touches no other table |
| CoursesRoute.PostCourse | apps/web/src/app/api/courses/route.js:61-96 | the in-place handler leaves the database and returns the response exactly as CreateCourse describes |
| WebinarCountdown.Tick | apps/web/src/components/RecentEnrolledWebinars.jsx:13-28 | from non-negative fields with time left a tick takes exactly one second off the total; minutes and seconds stay within the clock face and hours non-negative |
| WebinarCountdown.TickBorrows | apps/web/src/components/RecentEnrolledWebinars.jsx:13-28 | with seconds left only seconds drop; with nothing left to borrow the state stays put; non-negative hours stay non-negative |
| WebinarCountdown.TickStep | apps/web/src/components/RecentEnrolledWebinars.jsx:13-28 | from a well-formed state one tick takes one second off the total, or rests at 00:00:00 |
| WebinarCountdown.TicksCountDown | apps/web/src/components/RecentEnrolledWebinars.jsx:12-30 | n ticks from a well-formed state take n seconds off, never below zero, and keep the state well formed |
| WebinarCountdown.TicksReachZero | apps/web/src/components/RecentEnrolledWebinars.jsx:12-30 | once the total has elapsed the timer rests at 00:00:00 |
| WebinarCountdown.CountdownTimer.constructor | apps/web/src/components/RecentEnrolledWebinars.jsx:4-10 | without an initial countdown the timer shows 00:00:00 and schedules no interval |
| WebinarCountdown.CountdownTimer.OnInterval | apps/web/src/components/RecentEnrolledWebinars.jsx:13-28 | one interval firing replaces the countdown by its tick |
| WebinarCountdown.CountdownTimer.Elapse | apps/web/src/components/RecentEnrolledWebinars.jsx:9-32 | n seconds apply n ticks when an interval is scheduled and none otherwise |
| WebinarCountdown.FormatTime | apps/web/src/components/RecentEnrolledWebinars.jsx:34 | 0..9 render as "0" followed by the digit, values >= 10 as their digits, and 0..99 always in two characters |
| WebinarCountdown.FormatTimeRoundTrip | apps/web/src/components/RecentEnrolledWebinars.jsx:34 | reading a rendered non-negative value back gives the value |

## Left out

- The 500 answers of the `try`/`catch` blocks are not modelled: every database call is taken to succeed.
- Requests are handled one at a time. Races between an existence check and the following insert are outside the model.
- Only the filtering and counting the queries state are modelled, over abstract tables, not SQL in general:
  - the SQL text of the statements is reduced to named fragments;
  - the rows the two listing statements return (lesson progress, courses) are not computed;
  - columns no rule reads are not modelled: `updated_at`, `duration_minutes`, thumbnails, price, difficulty, category names and colours.
- Ids and query-string values are integers. A body id that is absent, null or 0 is "missing" (falsy). A query-string value that is absent, unparsable or empty is `None`. JavaScript's general `parseInt` of arbitrary strings is not modelled.
- A JSON `null` for `isCompleted` is stored as `false` rather than SQL NULL. Both read as "not completed" in every count and in the cascade check.
- The clock (`CURRENT_TIMESTAMP`, `CURRENT_DATE`, `CURRENT_TIME`) is a parameter. An enrollment's `enrolled_at` column default is taken to be the insert time.
- Ties in `ORDER BY enrolled_at DESC` and in the webinar order are left to the sort. The model proves the order, the limit and that no omitted row outranks a kept one, but not which of several equal rows the database returns.
- The webinar `hours_until_start` value and the countdown derived from it with `% 1` and `Math.floor` are floating-point computations and are not modelled. The timer takes its initial countdown as an input.
- The hard-coded quiz figures of the dashboard are not modelled.
- The database driver (`app/api/utils/sql`) is not part of this model. Its transaction is taken to resolve to one array of rows per query, in order, with COUNT values as numbers.
- Dashboard.GetDashboard: returns the statistics the route intends (`ComputeStats`), not the 0, 0, 0 the code as written reads (see Findings).
- Dashboard.CompletedCoursesAreFullyDone: the HAVING test compares the joined row counts. The model compares the number of distinct lessons with the number of distinct completed lessons. The two agree only while there is at most one progress row per (user, lesson). With two rows for one lesson, one completed and one not, the SQL leaves the course out and the model counts it. `Tables.Tables.Valid` rules that store out, and every handler keeps it (`LessonProgressRoute.RecordKeepsValid`). The same assumption holds for `Dashboard.CompletedCourseIds` and `Dashboard.CompletedCourseShowsFullProgress`.
- CourseStats.ProgressRowFor: the lesson counts are counts of distinct lessons, which equals the SQL join's row count only while there is at most one progress row per (user, lesson); `Tables.Tables.Valid` states that rule and every handler keeps it (`LessonProgressRoute.RecordKeepsValid`).
- The webinar card's locale date and time formatting, and the rest of the components' markup, are not modelled.
- WebinarCountdown.CountdownTimer: the interval's cleanup on unmount and React's state batching are not modelled. Each one-second firing is one call of `OnInterval`.

## Findings

| source | as written | input that shows it | evidently intended | confidence | as-written member | corrected member |
|---|---|---|---|---|---|---|
| apps/web/src/app/api/user-dashboard/route.js:10-45 | `const [statsResult] = await sql.transaction([...])` keeps only the first query's rows, so `statsResult[0]?.[0]`, `statsResult[1]` and `statsResult[2]` are all missing and every statistic reads 0 | a user with one enrollment: totalCourses reads 0 | `statsResult` is the whole list of results, one per query | not executed; depends on the driver returning one result per query | Dashboard.StatsAsWrittenAreZero | Dashboard.StatsIntendedAreComputeStats |
