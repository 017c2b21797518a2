/**
 * The relational store behind the API routes: one row datatype per table, the
 * whole store as a value (Tables), and the Database object whose tables the
 * route handlers update in place.
 *
 * Tables keyed by their own primary key (courses, lessons, webinars) are maps.
 * The tables whose "one row per pair" rule is enforced by the handlers rather
 * than by a key (lesson progress, enrollments, certificates) are sequences of
 * rows, so that the handlers' checks can be shown to keep that rule.
 */
module Tables {
  import opened Wrappers

  type Id = int
  /** A JSON body id counts as given when it is present and truthy: not null and not 0. */
  predicate Given(id: Option<Id>) {
    id.Some? && id.value != 0
  }

  /** An abstract clock reading (CURRENT_TIMESTAMP); larger is later. */
  type Time = int

  datatype Course = Course(
    title: string,
    instructor: string,
    description: Option<string>,
    categoryId: Option<Id>,
    isPublished: bool)

  datatype Lesson = Lesson(courseId: Id, isPublished: bool, lessonOrder: int)

  datatype Enrollment = Enrollment(userId: Id, courseId: Id, enrolledAt: Time, completedAt: Option<Time>)

  datatype ProgressRow = ProgressRow(
    userId: Id,
    lessonId: Id,
    watchedMinutes: int,
    isCompleted: bool,
    completedAt: Option<Time>)

  datatype Certificate = Certificate(userId: Id, courseId: Id, url: string)

  /** A webinar's calendar day and its start and end times of day. */
  datatype Webinar = Webinar(scheduledDate: int, startTime: int, endTime: int)

  datatype WebinarEnrollment = WebinarEnrollment(userId: Id, webinarId: Id, enrolledAt: Time)

  /** Every table of the store, as a value. nextCourseId is the courses table's id sequence. */
  datatype Tables = Tables(
    courses: map<Id, Course>,
    lessons: map<Id, Lesson>,
    enrollments: seq<Enrollment>,
    progress: seq<ProgressRow>,
    certificates: seq<Certificate>,
    webinars: map<Id, Webinar>,
    webinarEnrollments: seq<WebinarEnrollment>,
    nextCourseId: nat)
  {
    /** The store's integrity rules: one row per pair in the three pair tables, and fresh course ids. */
    predicate Valid() {
      && UniqueProgress(progress)
      && UniqueEnrollments(enrollments)
      && UniqueCertificates(certificates)
      && forall id :: id in courses ==> 0 <= id < nextCourseId
    }
  }

  // ---- one row per pair ----

  predicate UniqueProgress(rows: seq<ProgressRow>) {
    forall i, j :: 0 <= i < j < |rows| ==>
      rows[i].userId != rows[j].userId || rows[i].lessonId != rows[j].lessonId
  }

  predicate UniqueEnrollments(rows: seq<Enrollment>) {
    forall i, j :: 0 <= i < j < |rows| ==>
      rows[i].userId != rows[j].userId || rows[i].courseId != rows[j].courseId
  }

  predicate UniqueCertificates(rows: seq<Certificate>) {
    forall i, j :: 0 <= i < j < |rows| ==>
      rows[i].userId != rows[j].userId || rows[i].courseId != rows[j].courseId
  }

  predicate HasProgress(rows: seq<ProgressRow>, u: Id, l: Id) {
    exists i :: 0 <= i < |rows| && rows[i].userId == u && rows[i].lessonId == l
  }

  predicate IsEnrolled(rows: seq<Enrollment>, u: Id, c: Id) {
    exists i :: 0 <= i < |rows| && rows[i].userId == u && rows[i].courseId == c
  }

  predicate HasCertificate(rows: seq<Certificate>, u: Id, c: Id) {
    exists i :: 0 <= i < |rows| && rows[i].userId == u && rows[i].courseId == c
  }

  // ---- COUNT(...) over one table ----

  /** The number of progress rows of user u for lesson l. */
  function CountProgress(rows: seq<ProgressRow>, u: Id, l: Id): (n: nat)
    ensures n <= |rows|
    ensures n > 0 <==> HasProgress(rows, u, l)
  {
    if rows == [] then 0
    else
      var rest := CountProgress(rows[1..], u, l);
      assert HasProgress(rows, u, l) <==>
        (rows[0].userId == u && rows[0].lessonId == l) || HasProgress(rows[1..], u, l) by {
        if HasProgress(rows[1..], u, l) {
          var i :| 0 <= i < |rows[1..]| && rows[1..][i].userId == u && rows[1..][i].lessonId == l;
          assert rows[i + 1] == rows[1..][i];
        }
        if HasProgress(rows, u, l) && !(rows[0].userId == u && rows[0].lessonId == l) {
          var i :| 0 <= i < |rows| && rows[i].userId == u && rows[i].lessonId == l;
          assert rows[1..][i - 1] == rows[i];
        }
      }
      (if rows[0].userId == u && rows[0].lessonId == l then 1 else 0) + rest
  }

  /** The number of progress rows of user u for lesson l that are marked completed. */
  function CountCompletedProgress(rows: seq<ProgressRow>, u: Id, l: Id): (n: nat)
    ensures n <= CountProgress(rows, u, l)
  {
    if rows == [] then 0
    else
      (if rows[0].userId == u && rows[0].lessonId == l && rows[0].isCompleted then 1 else 0)
      + CountCompletedProgress(rows[1..], u, l)
  }

  /** COUNT(*) FROM a table WHERE user_id = u, for a table whose rows belong to owner(row). */
  function CountOwnedBy<R>(rows: seq<R>, owner: R -> Id, u: Id): (n: nat)
    ensures n <= |rows|
    ensures n > 0 <==> exists i :: 0 <= i < |rows| && owner(rows[i]) == u
  {
    if rows == [] then 0
    else
      var rest := CountOwnedBy(rows[1..], owner, u);
      assert (exists i :: 0 <= i < |rows| && owner(rows[i]) == u) <==>
        owner(rows[0]) == u || exists i :: 0 <= i < |rows[1..]| && owner(rows[1..][i]) == u by {
        if exists i :: 0 <= i < |rows[1..]| && owner(rows[1..][i]) == u {
          var i :| 0 <= i < |rows[1..]| && owner(rows[1..][i]) == u;
          assert rows[i + 1] == rows[1..][i];
        }
        if (exists i :: 0 <= i < |rows| && owner(rows[i]) == u) && owner(rows[0]) != u {
          var i :| 0 <= i < |rows| && owner(rows[i]) == u;
          assert rows[1..][i - 1] == rows[i];
        }
      }
      (if owner(rows[0]) == u then 1 else 0) + rest
  }

  /** An inserted row raises its owner's count by one and no other user's. */
  lemma {:induction false} CountOwnedByAppend<R>(rows: seq<R>, x: R, owner: R -> Id, u: Id)
    ensures CountOwnedBy(rows + [x], owner, u) == CountOwnedBy(rows, owner, u) + (if owner(x) == u then 1 else 0)
    decreases |rows|
  {
    if rows != [] {
      assert (rows + [x])[1..] == rows[1..] + [x];
      CountOwnedByAppend(rows[1..], x, owner, u);
    }
  }

  function EnrollmentUser(e: Enrollment): Id { e.userId }

  function CertificateUser(c: Certificate): Id { c.userId }

  lemma IsEnrolledCons(rows: seq<Enrollment>, u: Id, c: Id)
    requires rows != []
    ensures IsEnrolled(rows, u, c) <==>
      (rows[0].userId == u && rows[0].courseId == c) || IsEnrolled(rows[1..], u, c)
  {
    if IsEnrolled(rows[1..], u, c) {
      var i :| 0 <= i < |rows[1..]| && rows[1..][i].userId == u && rows[1..][i].courseId == c;
      assert rows[i + 1] == rows[1..][i];
    }
    if IsEnrolled(rows, u, c) && !(rows[0].userId == u && rows[0].courseId == c) {
      var i :| 0 <= i < |rows| && rows[i].userId == u && rows[i].courseId == c;
      assert rows[1..][i - 1] == rows[i];
    }
  }

  /** The courses user u is enrolled in. */
  function EnrolledCourseIds(rows: seq<Enrollment>, u: Id): (s: set<Id>)
    ensures forall c :: c in s <==> IsEnrolled(rows, u, c)
  {
    if rows == [] then {}
    else
      var rest := EnrolledCourseIds(rows[1..], u);
      assert forall c :: IsEnrolled(rows, u, c) <==>
        (rows[0].userId == u && rows[0].courseId == c) || IsEnrolled(rows[1..], u, c) by {
        forall c { IsEnrolledCons(rows, u, c); }
      }
      (if rows[0].userId == u then {rows[0].courseId} else {}) + rest
  }

  /**
   * With one enrollment per (user, course), the user's enrollment count is the
   * number of distinct courses the user is enrolled in.
   */
  lemma {:induction false} EnrollmentCountIsCourseCount(rows: seq<Enrollment>, u: Id)
    requires UniqueEnrollments(rows)
    ensures CountOwnedBy(rows, EnrollmentUser, u) == |EnrolledCourseIds(rows, u)|
    decreases |rows|
  {
    if rows != [] {
      var rest := rows[1..];
      assert UniqueEnrollments(rest) by {
        forall i, j | 0 <= i < j < |rest|
          ensures rest[i].userId != rest[j].userId || rest[i].courseId != rest[j].courseId
        {
          assert rest[i] == rows[i + 1] && rest[j] == rows[j + 1];
        }
      }
      EnrollmentCountIsCourseCount(rest, u);
      if rows[0].userId == u {
        assert rows[0].courseId !in EnrolledCourseIds(rest, u);
      }
    }
  }

  /** The store whose tables the route handlers read and update in place. */
  class Database {
    var courses: map<Id, Course>
    var lessons: map<Id, Lesson>
    var enrollments: seq<Enrollment>
    var progress: seq<ProgressRow>
    var certificates: seq<Certificate>
    var webinars: map<Id, Webinar>
    var webinarEnrollments: seq<WebinarEnrollment>
    var nextCourseId: nat

    /** The current contents of every table. */
    function Snapshot(): (t: Tables)
      reads this
      ensures t.progress == progress && t.enrollments == enrollments && t.certificates == certificates
      ensures t.courses == courses && t.lessons == lessons && t.nextCourseId == nextCourseId
    {
      Tables(courses, lessons, enrollments, progress, certificates, webinars, webinarEnrollments, nextCourseId)
    }

    constructor (t: Tables)
      ensures Snapshot() == t
    {
      courses, lessons, enrollments := t.courses, t.lessons, t.enrollments;
      progress, certificates := t.progress, t.certificates;
      webinars, webinarEnrollments, nextCourseId := t.webinars, t.webinarEnrollments, t.nextCourseId;
    }
  }
}
