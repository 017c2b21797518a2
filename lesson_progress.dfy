/**
 * POST /api/lesson-progress: record a user's progress on one lesson, and when
 * the lesson is reported completed, stamp the enrollment's completion time and
 * issue the course certificate. GET /api/lesson-progress: the statement that
 * lists a user's progress rows.
 */
module LessonProgressRoute {
  import opened Wrappers
  import opened Tables
  import opened Query
  import Text

  /** The JSON body: ids are numbers, and a missing, null or 0 id is not given. */
  datatype ProgressRequest = ProgressRequest(
    userId: Option<Id>,
    lessonId: Option<Id>,
    watchedDurationMinutes: Option<int>,
    isCompleted: Option<bool>)

  const MISSING_IDS := "User ID and Lesson ID are required"
  const LESSON_NOT_FOUND := "Lesson not found or not published"
  const MISSING_USER := "User ID is required"

  // ---- the progress row upsert ----

  /** The row's (user, lesson) pair is the one given. */
  predicate SameKey(a: ProgressRow, b: ProgressRow) {
    a.userId == b.userId && a.lessonId == b.lessonId
  }

  /** UPDATE lesson_progress SET ... WHERE user_id = u AND lesson_id = l: every row of row's pair becomes row. */
  function UpdateMatching(rows: seq<ProgressRow>, row: ProgressRow): (r: seq<ProgressRow>)
    ensures |r| == |rows|
  {
    if rows == [] then []
    else [if SameKey(rows[0], row) then row else rows[0]] + UpdateMatching(rows[1..], row)
  }

  /** The progress table after the route's update-or-insert of row. */
  function Upsert(rows: seq<ProgressRow>, row: ProgressRow): (r: seq<ProgressRow>)
    ensures HasProgress(r, row.userId, row.lessonId)
    ensures |r| == if HasProgress(rows, row.userId, row.lessonId) then |rows| else |rows| + 1
  {
    if HasProgress(rows, row.userId, row.lessonId) then
      var i :| 0 <= i < |rows| && rows[i].userId == row.userId && rows[i].lessonId == row.lessonId;
      UpdateMatchingKeepsKeys(rows, row, i);
      UpdateMatching(rows, row)
    else
      assert (rows + [row])[|rows|] == row;
      rows + [row]
  }

  /** The rows of every other (user, lesson) pair, in table order. */
  function Others(rows: seq<ProgressRow>, u: Id, l: Id): seq<ProgressRow> {
    if rows == [] then []
    else (if rows[0].userId == u && rows[0].lessonId == l then [] else [rows[0]]) + Others(rows[1..], u, l)
  }

  // ---- the completion cascade ----

  /** One result row of the course-progress query: its course and its two counts. */
  datatype CourseCounts = CourseCounts(courseId: Id, totalLessons: nat, completedLessons: nat)

  /**
   * The course-progress query as written: it is restricted to the one lesson l,
   * joins that lesson's course (no row when the course is absent) and left-joins
   * the progress rows of user u for l. COUNT(l.id) counts the joined rows (one
   * even when no progress row matches); the completed count counts the completed
   * progress rows.
   */
  function LessonCourseCounts(t: Tables, u: Id, l: Id): (r: Option<CourseCounts>)
    ensures r.Some? <==> l in t.lessons && t.lessons[l].courseId in t.courses
    ensures r.Some? ==>
      && r.value.courseId == t.lessons[l].courseId
      && 1 <= r.value.totalLessons
      && r.value.completedLessons <= r.value.totalLessons
    ensures r.Some? && UniqueProgress(t.progress) ==> r.value.totalLessons == 1
  {
    if l in t.lessons && t.lessons[l].courseId in t.courses then
      var n := CountProgress(t.progress, u, l);
      assert UniqueProgress(t.progress) ==> n <= 1 by {
        if UniqueProgress(t.progress) {
          CountProgressUnique(t.progress, u, l);
        }
      }
      Some(CourseCounts(t.lessons[l].courseId, if n == 0 then 1 else n, CountCompletedProgress(t.progress, u, l)))
    else None
  }

  /** UPDATE enrollments SET completed_at = now WHERE user_id = u AND course_id = c AND completed_at IS NULL. */
  function CompleteEnrollments(rows: seq<Enrollment>, u: Id, c: Id, now: Time): (r: seq<Enrollment>)
    ensures |r| == |rows|
    ensures forall i :: 0 <= i < |r| ==>
      r[i].userId == rows[i].userId && r[i].courseId == rows[i].courseId && r[i].enrolledAt == rows[i].enrolledAt
  {
    if rows == [] then []
    else
      var e := rows[0];
      [if e.userId == u && e.courseId == c && e.completedAt.None? then e.(completedAt := Some(now)) else e]
      + CompleteEnrollments(rows[1..], u, c, now)
  }

  const CERTIFICATE_URL_PREFIX := "https://certificates.example.com/user-"
  const COURSE_SEPARATOR := "-course-"
  const CERTIFICATE_SUFFIX := ".pdf"

  function CertificateUrl(u: Id, c: Id): string {
    CERTIFICATE_URL_PREFIX + Text.Decimal(u) + COURSE_SEPARATOR + Text.Decimal(c) + CERTIFICATE_SUFFIX
  }

  /** Insert the certificate for (u, c) unless one exists. */
  function IssueCertificate(rows: seq<Certificate>, u: Id, c: Id): (r: seq<Certificate>)
    ensures HasCertificate(r, u, c)
    ensures rows <= r && |r| <= |rows| + 1
  {
    if HasCertificate(rows, u, c) then rows
    else
      var r := rows + [Certificate(u, c, CertificateUrl(u, c))];
      assert r[|rows|].userId == u && r[|rows|].courseId == c;
      r
  }

  /** The cascade that runs after a completed report for lesson l. */
  function Cascade(t: Tables, u: Id, l: Id, now: Time): (r: Tables)
    ensures r.progress == t.progress && r.courses == t.courses && r.lessons == t.lessons
    ensures r.webinars == t.webinars && r.webinarEnrollments == t.webinarEnrollments && r.nextCourseId == t.nextCourseId
    ensures LessonCourseCounts(t, u, l).None? ==> r == t
    ensures r == t || (
      var c := t.lessons[l].courseId;
      && r.enrollments == CompleteEnrollments(t.enrollments, u, c, now)
      && r.certificates == IssueCertificate(t.certificates, u, c))
  {
    match LessonCourseCounts(t, u, l)
    case None => t
    case Some(cc) =>
      if cc.totalLessons == cc.completedLessons then
        t.(enrollments := CompleteEnrollments(t.enrollments, u, cc.courseId, now),
           certificates := IssueCertificate(t.certificates, u, cc.courseId))
      else t
  }

  /** The row the request asks to store: `watchedDurationMinutes || 0`, and completed_at set iff completed. */
  function RequestedRow(u: Id, l: Id, req: ProgressRequest, now: Time): ProgressRow {
    var completed := req.isCompleted.GetOr(false);
    ProgressRow(u, l, req.watchedDurationMinutes.GetOr(0), completed, if completed then Some(now) else None)
  }

  /** POST /api/lesson-progress on store t at clock reading now: the new store and the response. */
  function Record(t: Tables, req: ProgressRequest, now: Time): (r: (Tables, Response<ProgressRow>))
    ensures r.1.Failure? ==> r.0 == t
    ensures r.1 == Failure(BAD_REQUEST, MISSING_IDS) <==> !Given(req.userId) || !Given(req.lessonId)
    ensures r.1 == Failure(NOT_FOUND, LESSON_NOT_FOUND) <==>
      Given(req.userId) && Given(req.lessonId) &&
      (req.lessonId.value !in t.lessons || !t.lessons[req.lessonId.value].isPublished)
    ensures r.1.Success? <==>
      Given(req.userId) && Given(req.lessonId) &&
      req.lessonId.value in t.lessons && t.lessons[req.lessonId.value].isPublished
    ensures r.1.Success? ==> r.1.status == OK && r.1.data.userId == req.userId.value && r.1.data.lessonId == req.lessonId.value
    ensures r.0.courses == t.courses && r.0.lessons == t.lessons && r.0.nextCourseId == t.nextCourseId
    ensures r.0.webinars == t.webinars && r.0.webinarEnrollments == t.webinarEnrollments
  {
    if !Given(req.userId) || !Given(req.lessonId) then
      (t, Failure(BAD_REQUEST, MISSING_IDS))
    else
      var u, l := req.userId.value, req.lessonId.value;
      if l !in t.lessons || !t.lessons[l].isPublished then
        (t, Failure(NOT_FOUND, LESSON_NOT_FOUND))
      else
        var row := RequestedRow(u, l, req, now);
        var t1 := t.(progress := Upsert(t.progress, row));
        (if row.isCompleted then Cascade(t1, u, l, now) else t1, Success(OK, row))
  }

  // ---- lemmas: the upsert ----

  lemma {:induction false} UpdateMatchingKeepsKeys(rows: seq<ProgressRow>, row: ProgressRow, i: nat)
    requires i < |rows|
    ensures SameKey(UpdateMatching(rows, row)[i], rows[i])
    ensures UpdateMatching(rows, row)[i] == if SameKey(rows[i], row) then row else rows[i]
    decreases |rows|
  {
    if i > 0 {
      UpdateMatchingKeepsKeys(rows[1..], row, i - 1);
    }
  }

  lemma {:induction false} CountProgressAppend(rows: seq<ProgressRow>, x: ProgressRow, u: Id, l: Id)
    ensures CountProgress(rows + [x], u, l) ==
      CountProgress(rows, u, l) + (if x.userId == u && x.lessonId == l then 1 else 0)
    ensures CountCompletedProgress(rows + [x], u, l) ==
      CountCompletedProgress(rows, u, l) + (if x.userId == u && x.lessonId == l && x.isCompleted then 1 else 0)
    decreases |rows|
  {
    if rows != [] {
      assert (rows + [x])[1..] == rows[1..] + [x];
      CountProgressAppend(rows[1..], x, u, l);
    }
  }

  /** With one row per pair, a pair that has a row has exactly one. */
  lemma {:induction false} CountProgressUnique(rows: seq<ProgressRow>, u: Id, l: Id)
    requires UniqueProgress(rows)
    ensures CountProgress(rows, u, l) <= 1
    decreases |rows|
  {
    if rows != [] {
      var rest := rows[1..];
      assert UniqueProgress(rest) by {
        forall i, j | 0 <= i < j < |rest|
          ensures rest[i].userId != rest[j].userId || rest[i].lessonId != rest[j].lessonId
        {
          assert rest[i] == rows[i + 1] && rest[j] == rows[j + 1];
        }
      }
      CountProgressUnique(rest, u, l);
      if rows[0].userId == u && rows[0].lessonId == l {
        assert !HasProgress(rest, u, l) by {
          forall i | 0 <= i < |rest| ensures !(rest[i].userId == u && rest[i].lessonId == l) {
            assert rest[i] == rows[i + 1];
          }
        }
      }
    }
  }

  /** After UpdateMatching every row of the pair is the new row, so all of them are completed iff it is. */
  lemma {:induction false} UpdateMatchingCounts(rows: seq<ProgressRow>, row: ProgressRow)
    ensures CountProgress(UpdateMatching(rows, row), row.userId, row.lessonId) ==
      CountProgress(rows, row.userId, row.lessonId)
    ensures CountCompletedProgress(UpdateMatching(rows, row), row.userId, row.lessonId) ==
      if row.isCompleted then CountProgress(rows, row.userId, row.lessonId) else 0
    decreases |rows|
  {
    if rows != [] {
      UpdateMatchingCounts(rows[1..], row);
    }
  }

  /**
   * After the upsert the pair has exactly one row, the requested one; the table
   * keeps one row per pair.
   */
  lemma UpsertLeavesOneRow(rows: seq<ProgressRow>, row: ProgressRow)
    requires UniqueProgress(rows)
    ensures UniqueProgress(Upsert(rows, row))
    ensures CountProgress(Upsert(rows, row), row.userId, row.lessonId) == 1
    ensures CountCompletedProgress(Upsert(rows, row), row.userId, row.lessonId) == if row.isCompleted then 1 else 0
    ensures forall i :: 0 <= i < |Upsert(rows, row)| && SameKey(Upsert(rows, row)[i], row) ==>
      Upsert(rows, row)[i] == row
  {
    var r := Upsert(rows, row);
    var u, l := row.userId, row.lessonId;
    if HasProgress(rows, u, l) {
      forall i | 0 <= i < |r| ensures SameKey(r[i], rows[i]) && r[i] == if SameKey(rows[i], row) then row else rows[i] {
        UpdateMatchingKeepsKeys(rows, row, i);
      }
      CountProgressUnique(rows, u, l);
      UpdateMatchingCounts(rows, row);
    } else {
      CountProgressAppend(rows, row, u, l);
      assert forall i :: 0 <= i < |rows| ==> r[i] == rows[i];
    }
  }

  lemma {:induction false} OthersAppendSameKey(rows: seq<ProgressRow>, x: ProgressRow)
    ensures Others(rows + [x], x.userId, x.lessonId) == Others(rows, x.userId, x.lessonId)
    decreases |rows|
  {
    if rows != [] {
      assert (rows + [x])[1..] == rows[1..] + [x];
      OthersAppendSameKey(rows[1..], x);
    }
  }

  lemma {:induction false} OthersUpdateMatching(rows: seq<ProgressRow>, row: ProgressRow)
    ensures Others(UpdateMatching(rows, row), row.userId, row.lessonId) == Others(rows, row.userId, row.lessonId)
    decreases |rows|
  {
    if rows != [] {
      OthersUpdateMatching(rows[1..], row);
    }
  }

  /** The upsert changes no row of any other (user, lesson) pair. */
  lemma UpsertKeepsOtherRows(rows: seq<ProgressRow>, row: ProgressRow)
    ensures Others(Upsert(rows, row), row.userId, row.lessonId) == Others(rows, row.userId, row.lessonId)
  {
    if HasProgress(rows, row.userId, row.lessonId) {
      OthersUpdateMatching(rows, row);
    } else {
      OthersAppendSameKey(rows, row);
    }
  }

  // ---- lemmas: the cascade ----

  lemma {:induction false} CompleteEnrollmentsAt(rows: seq<Enrollment>, u: Id, c: Id, now: Time, i: nat)
    requires i < |rows|
    ensures CompleteEnrollments(rows, u, c, now)[i] ==
      if rows[i].userId == u && rows[i].courseId == c && rows[i].completedAt.None?
      then rows[i].(completedAt := Some(now)) else rows[i]
    decreases |rows|
  {
    if i > 0 {
      CompleteEnrollmentsAt(rows[1..], u, c, now, i - 1);
    }
  }

  /**
   * The enrollment update stamps only rows of (u, c) whose completion time is
   * null: a completion time once set never changes, and a second run (at any
   * later clock reading) changes nothing.
   */
  lemma CompleteEnrollmentsSetsOnce(rows: seq<Enrollment>, u: Id, c: Id, now: Time, later: Time)
    ensures forall i :: 0 <= i < |rows| && rows[i].completedAt.Some? ==>
      CompleteEnrollments(rows, u, c, now)[i] == rows[i]
    ensures forall i :: 0 <= i < |rows| && rows[i].userId == u && rows[i].courseId == c ==>
      CompleteEnrollments(rows, u, c, now)[i].completedAt.Some?
    ensures CompleteEnrollments(CompleteEnrollments(rows, u, c, now), u, c, later) ==
      CompleteEnrollments(rows, u, c, now)
  {
    var once := CompleteEnrollments(rows, u, c, now);
    forall i | 0 <= i < |rows|
      ensures once[i] == if rows[i].userId == u && rows[i].courseId == c && rows[i].completedAt.None?
        then rows[i].(completedAt := Some(now)) else rows[i]
      ensures CompleteEnrollments(once, u, c, later)[i] == once[i]
    {
      CompleteEnrollmentsAt(rows, u, c, now, i);
      CompleteEnrollmentsAt(once, u, c, later, i);
    }
  }

  /** The enrollment update changes no row's (user, course) pair, so it keeps one row per pair. */
  lemma CompleteEnrollmentsKeepsUnique(rows: seq<Enrollment>, u: Id, c: Id, now: Time)
    requires UniqueEnrollments(rows)
    ensures UniqueEnrollments(CompleteEnrollments(rows, u, c, now))
  {
    forall i | 0 <= i < |rows| {
      CompleteEnrollmentsAt(rows, u, c, now, i);
    }
  }

  /**
   * The certificate step keeps at most one certificate per (user, course),
   * leaves exactly one for (u, c), adds a row only when there was none, with the
   * templated URL, and is idempotent.
   */
  lemma IssueCertificateKeepsOne(rows: seq<Certificate>, u: Id, c: Id)
    requires UniqueCertificates(rows)
    ensures UniqueCertificates(IssueCertificate(rows, u, c))
    ensures HasCertificate(IssueCertificate(rows, u, c), u, c)
    ensures HasCertificate(rows, u, c) ==> IssueCertificate(rows, u, c) == rows
    ensures !HasCertificate(rows, u, c) ==>
      IssueCertificate(rows, u, c) == rows + [Certificate(u, c, CertificateUrl(u, c))]
    ensures IssueCertificate(IssueCertificate(rows, u, c), u, c) == IssueCertificate(rows, u, c)
  {
    var r := IssueCertificate(rows, u, c);
    if !HasCertificate(rows, u, c) {
      assert r[|rows|] == Certificate(u, c, CertificateUrl(u, c));
    }
  }

  /** The pieces of a five-part concatenation sit where their lengths put them. */
  lemma ConcatPieces(a: string, b: string, c: string, d: string, e: string)
    ensures var s := a + b + c + d + e;
      && |s| == |a| + |b| + |c| + |d| + |e|
      && s[..|a|] == a
      && s[|a|..|a| + |b|] == b
      && s[|a| + |b|..|a| + |b| + |c|] == c
      && s[|a| + |b| + |c|..|a| + |b| + |c| + |d|] == d
      && s[|s| - |e|..] == e
  {
  }

  /**
   * For non-negative ids the URL is the fixed prefix, the user id in decimal,
   * the course separator, the course id in decimal and the suffix; by
   * DigitsBetweenPieces both ids read back from it.
   */
  lemma CertificateUrlShape(u: Id, c: Id)
    requires u >= 0 && c >= 0
    ensures CertificateUrl(u, c) ==
      CERTIFICATE_URL_PREFIX + Text.Digits(u) + COURSE_SEPARATOR + Text.Digits(c) + CERTIFICATE_SUFFIX
  {
  }

  /**
   * A string made of a prefix, the decimal digits of u, a separator, the
   * decimal digits of c and a suffix: the pieces sit where their lengths put
   * them and both numbers read back.
   */
  lemma DigitsBetweenPieces(url: string, p: string, du: string, sep: string, dc: string, sfx: string, u: nat, c: nat)
    requires du == Text.Digits(u) && dc == Text.Digits(c)
    requires url == p + du + sep + dc + sfx
    ensures |url| == |p| + |du| + |sep| + |dc| + |sfx|
    ensures url[..|p|] == p && url[|url| - |sfx|..] == sfx
    ensures Text.AllDigits(url[|p|..|p| + |du|]) && Text.ParseDigits(url[|p|..|p| + |du|]) == u
    ensures Text.AllDigits(url[|p| + |du| + |sep|..|url| - |sfx|]) && Text.ParseDigits(url[|p| + |du| + |sep|..|url| - |sfx|]) == c
  {
    ConcatPieces(p, du, sep, dc, sfx);
    ParseDigitsSlice(url, |p|, |p| + |du|, u);
    ParseDigitsSlice(url, |p| + |du| + |sep|, |url| - |sfx|, c);
  }

  /** A stretch of s that holds the decimal digits of n reads back as n. */
  lemma ParseDigitsSlice(s: string, i: nat, j: nat, n: nat)
    requires i <= j <= |s| && s[i..j] == Text.Digits(n)
    ensures Text.AllDigits(s[i..j]) && Text.ParseDigits(s[i..j]) == n
  {
    Text.ParseDigitsOfDigits(n);
  }

  // ---- lemmas: the whole POST ----

  /** A successful POST leaves exactly one progress row for the pair, the returned row, and no other row changes. */
  lemma RecordStoresOneRow(t: Tables, req: ProgressRequest, now: Time)
    requires t.Valid()
    requires Record(t, req, now).1.Success?
    ensures var (t', resp) := Record(t, req, now);
      var u, l := req.userId.value, req.lessonId.value;
      && CountProgress(t'.progress, u, l) == 1
      && (forall i :: 0 <= i < |t'.progress| && t'.progress[i].userId == u && t'.progress[i].lessonId == l ==>
            t'.progress[i] == resp.data)
      && Others(t'.progress, u, l) == Others(t.progress, u, l)
      && resp.data.watchedMinutes == (if req.watchedDurationMinutes.Some? then req.watchedDurationMinutes.value else 0)
      && resp.data.isCompleted == (req.isCompleted == Some(true))
      && (resp.data.completedAt == if resp.data.isCompleted then Some(now) else None)
  {
    var u, l := req.userId.value, req.lessonId.value;
    var row := RequestedRow(u, l, req, now);
    UpsertLeavesOneRow(t.progress, row);
    UpsertKeepsOtherRows(t.progress, row);
  }

  /** A report that does not mark the lesson completed leaves enrollments and certificates as they were. */
  lemma RecordIncompleteLeavesCourseTables(t: Tables, req: ProgressRequest, now: Time)
    requires req.isCompleted != Some(true)
    ensures Record(t, req, now).0.enrollments == t.enrollments
    ensures Record(t, req, now).0.certificates == t.certificates
  {
  }

  /**
   * As written, the course-progress query counts only the lesson just reported,
   * so a completed report always finds total == completed (1 = 1): whenever the
   * lesson's course row exists the enrollment is stamped and the certificate
   * issued, whatever the state of the course's other lessons, and whether or not
   * an enrollment row exists.
   */
  lemma RecordCompletedCascades(t: Tables, req: ProgressRequest, now: Time)
    requires t.Valid()
    requires Record(t, req, now).1.Success?
    requires req.isCompleted == Some(true)
    requires t.lessons[req.lessonId.value].courseId in t.courses
    ensures var (t', _) := Record(t, req, now);
      var u, c := req.userId.value, t.lessons[req.lessonId.value].courseId;
      && LessonCourseCounts(t', u, req.lessonId.value) == Some(CourseCounts(c, 1, 1))
      && t'.enrollments == CompleteEnrollments(t.enrollments, u, c, now)
      && t'.certificates == IssueCertificate(t.certificates, u, c)
  {
    var u, l := req.userId.value, req.lessonId.value;
    UpsertLeavesOneRow(t.progress, RequestedRow(u, l, req, now));
  }

  /** A lesson whose course row is absent triggers no cascade. */
  lemma RecordWithoutCourseRowLeavesCourseTables(t: Tables, req: ProgressRequest, now: Time)
    requires Record(t, req, now).1.Success?
    requires t.lessons[req.lessonId.value].courseId !in t.courses
    ensures Record(t, req, now).0.enrollments == t.enrollments
    ensures Record(t, req, now).0.certificates == t.certificates
  {
  }

  /** Every POST keeps the store's integrity rules. */
  lemma RecordKeepsValid(t: Tables, req: ProgressRequest, now: Time)
    requires t.Valid()
    ensures Record(t, req, now).0.Valid()
  {
    if Record(t, req, now).1.Success? {
      var u, l := req.userId.value, req.lessonId.value;
      var row := RequestedRow(u, l, req, now);
      UpsertLeavesOneRow(t.progress, row);
      var t1 := t.(progress := Upsert(t.progress, row));
      match LessonCourseCounts(t1, u, l)
      case None =>
      case Some(cc) =>
        IssueCertificateKeepsOne(t.certificates, u, cc.courseId);
        CompleteEnrollmentsKeepsUnique(t.enrollments, u, cc.courseId, now);
    }
  }

  /**
   * Repeating the same POST (at a later clock reading) leaves enrollments and
   * certificates as the first call left them and adds no progress row; only
   * the progress row's completion time moves to the new reading, because the
   * route stamps it on every completed report.
   */
  lemma RecordTwice(t: Tables, req: ProgressRequest, now: Time, later: Time)
    requires t.Valid()
    ensures var t1 := Record(t, req, now).0;
      var t2 := Record(t1, req, later).0;
      && t2.enrollments == t1.enrollments
      && t2.certificates == t1.certificates
      && |t2.progress| == |t1.progress|
      && (Record(t, req, now).1.Success? ==>
            t2.progress == Upsert(t1.progress, RequestedRow(req.userId.value, req.lessonId.value, req, later)))
  {
    var t1 := Record(t, req, now).0;
    if Record(t, req, now).1.Success? {
      var u, l := req.userId.value, req.lessonId.value;
      var row1, row2 := RequestedRow(u, l, req, now), RequestedRow(u, l, req, later);
      UpsertLeavesOneRow(t.progress, row1);
      RecordKeepsValid(t, req, now);
      UpsertLeavesOneRow(t1.progress, row2);
      assert HasProgress(t1.progress, u, l);
      if row1.isCompleted && t.lessons[l].courseId in t.courses {
        RecordCompletedCascades(t, req, now);
        RecordCompletedCascades(t1, req, later);
        var c := t.lessons[l].courseId;
        CompleteEnrollmentsSetsOnce(t.enrollments, u, c, now, later);
        IssueCertificateKeepsOne(t.certificates, u, c);
      }
    }
  }

  // ---- the handlers ----

  /** POST /api/lesson-progress against the live store. */
  method PostLessonProgress(db: Database, req: ProgressRequest, now: Time) returns (resp: Response<ProgressRow>)
    modifies db
    ensures (db.Snapshot(), resp) == Record(old(db.Snapshot()), req, now)
  {
    if !Given(req.userId) || !Given(req.lessonId) {
      return Failure(BAD_REQUEST, MISSING_IDS);
    }
    var u, l := req.userId.value, req.lessonId.value;
    if l !in db.lessons || !db.lessons[l].isPublished {
      return Failure(NOT_FOUND, LESSON_NOT_FOUND);
    }
    var completed := req.isCompleted.GetOr(false);
    var row := ProgressRow(u, l, req.watchedDurationMinutes.GetOr(0), completed, if completed then Some(now) else None);
    if HasProgress(db.progress, u, l) {
      db.progress := UpdateMatching(db.progress, row);
    } else {
      db.progress := db.progress + [row];
    }
    if completed {
      var counts := LessonCourseCounts(db.Snapshot(), u, l);
      if counts.Some? && counts.value.totalLessons == counts.value.completedLessons {
        var c := counts.value.courseId;
        db.enrollments := CompleteEnrollments(db.enrollments, u, c, now);
        if !HasCertificate(db.certificates, u, c) {
          db.certificates := db.certificates + [Certificate(u, c, CertificateUrl(u, c))];
        }
      }
    }
    resp := Success(OK, row);
  }

  /** The SQL text pieces of the progress listing statement. */
  datatype Fragment =
    | SelectProgress        // progress rows joined with lesson and course, WHERE user equals the placeholder
    | CourseIs              // AND course id equals the placeholder
    | OrderByCourseLesson   // ORDER BY course id, lesson order

  const SELECT_PROGRESS: Token<Fragment> := Sql(SelectProgress)
  const COURSE_IS: Token<Fragment> := Sql(CourseIs)
  const ORDER_BY_COURSE_LESSON: Token<Fragment> := Sql(OrderByCourseLesson)

  /**
   * GET /api/lesson-progress: 400 without a userId (a query-string value; any
   * present value is a non-empty string), otherwise the listing statement, with
   * the course filter appended when courseId is given.
   */
  method ProgressListQuery(userId: Option<Id>, courseId: Option<Id>)
    returns (r: Response<(seq<Token<Fragment>>, seq<Value>)>)
    ensures r.Failure? <==> userId.None?
    ensures r.Failure? ==> r == Failure(BAD_REQUEST, MISSING_USER)
    ensures r.Success? ==> var (query, params) := r.data;
      && Binds(query, params)
      && params == [Int(userId.value)] + (if courseId.Some? then [Int(courseId.value)] else [])
      && query == [SELECT_PROGRESS, Placeholder(1)]
           + (if courseId.Some? then [COURSE_IS, Placeholder(2)] else [])
           + [ORDER_BY_COURSE_LESSON]
  {
    if userId.None? {
      return Failure(BAD_REQUEST, MISSING_USER);
    }
    var query: seq<Token<Fragment>> := [SELECT_PROGRESS];
    var params: seq<Value> := [];
    BindNone(query);
    BindNext(query, params, [Placeholder(1)], Int(userId.value));
    query := query + [Placeholder(1)];
    params := params + [Int(userId.value)];
    if courseId.Some? {
      var clause := [COURSE_IS, Placeholder(2)];
      BindNext(query, params, clause, Int(courseId.value));
      query := query + clause;
      params := params + [Int(courseId.value)];
    }
    BindText(query, params, [ORDER_BY_COURSE_LESSON]);
    query := query + [ORDER_BY_COURSE_LESSON];
    r := Success(OK, (query, params));
  }
}
