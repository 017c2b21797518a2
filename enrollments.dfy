/**
 * POST /api/enrollments: enroll a user in a published course, at most once.
 * GET /api/enrollments: the user's enrolled courses with their progress, newest first.
 */
module EnrollmentsRoute {
  import opened Wrappers
  import opened Tables
  import opened CourseStats
  import Ordering

  /** The JSON body: ids are numbers, and a missing, null or 0 id is not given. */
  datatype EnrollRequest = EnrollRequest(userId: Option<Id>, courseId: Option<Id>)

  const MISSING_IDS := "User ID and Course ID are required"
  const COURSE_NOT_FOUND := "Course not found or not published"
  const ALREADY_ENROLLED := "User already enrolled in this course"
  const MISSING_USER := "User ID is required"

  /**
   * POST /api/enrollments on store t at clock reading now. The new row's
   * enrolled_at is the table's default, taken to be the insert time.
   */
  function Enroll(t: Tables, req: EnrollRequest, now: Time): (r: (Tables, Response<Enrollment>))
    ensures r.1.Failure? ==> r.0 == t
    ensures r.1 == Failure(BAD_REQUEST, MISSING_IDS) <==> !Given(req.userId) || !Given(req.courseId)
    ensures r.1 == Failure(NOT_FOUND, COURSE_NOT_FOUND) <==>
      Given(req.userId) && Given(req.courseId) &&
      (req.courseId.value !in t.courses || !t.courses[req.courseId.value].isPublished)
    ensures r.1 == Failure(CONFLICT, ALREADY_ENROLLED) <==>
      Given(req.userId) && Given(req.courseId) &&
      req.courseId.value in t.courses && t.courses[req.courseId.value].isPublished &&
      IsEnrolled(t.enrollments, req.userId.value, req.courseId.value)
    ensures r.1.Success? <==>
      Given(req.userId) && Given(req.courseId) &&
      req.courseId.value in t.courses && t.courses[req.courseId.value].isPublished &&
      !IsEnrolled(t.enrollments, req.userId.value, req.courseId.value)
    ensures r.1.Success? ==>
      && r.1 == Success(CREATED, Enrollment(req.userId.value, req.courseId.value, now, None))
      && r.0 == t.(enrollments := t.enrollments + [r.1.data])
  {
    if !Given(req.userId) || !Given(req.courseId) then
      (t, Failure(BAD_REQUEST, MISSING_IDS))
    else
      var u, c := req.userId.value, req.courseId.value;
      if c !in t.courses || !t.courses[c].isPublished then
        (t, Failure(NOT_FOUND, COURSE_NOT_FOUND))
      else if IsEnrolled(t.enrollments, u, c) then
        (t, Failure(CONFLICT, ALREADY_ENROLLED))
      else
        var e := Enrollment(u, c, now, None);
        (t.(enrollments := t.enrollments + [e]), Success(CREATED, e))
  }

  /**
   * Every enrollment POST keeps one enrollment per (user, course); a
   * successful one adds exactly one enrollment for the user, for that course.
   */
  lemma EnrollKeepsOnePerPair(t: Tables, req: EnrollRequest, now: Time)
    requires t.Valid()
    ensures Enroll(t, req, now).0.Valid()
    ensures var (t', resp) := Enroll(t, req, now);
      resp.Success? ==>
        && !IsEnrolled(t.enrollments, req.userId.value, req.courseId.value)
        && IsEnrolled(t'.enrollments, req.userId.value, req.courseId.value)
        && CountOwnedBy(t'.enrollments, EnrollmentUser, req.userId.value) == CountOwnedBy(t.enrollments, EnrollmentUser, req.userId.value) + 1
  {
    var (t', resp) := Enroll(t, req, now);
    if resp.Success? {
      var e := resp.data;
      CountOwnedByAppend(t.enrollments, e, EnrollmentUser, e.userId);
      assert t'.enrollments[|t.enrollments|] == e;
    }
  }

  /** A second identical POST is refused with 409 and changes nothing. */
  lemma EnrollTwiceConflicts(t: Tables, req: EnrollRequest, now: Time, later: Time)
    requires Enroll(t, req, now).1.Success?
    ensures Enroll(Enroll(t, req, now).0, req, later) == (Enroll(t, req, now).0, Failure(CONFLICT, ALREADY_ENROLLED))
  {
    var t' := Enroll(t, req, now).0;
    assert t'.enrollments[|t.enrollments|] == Enroll(t, req, now).1.data;
  }

  /** POST /api/enrollments against the live store. */
  method PostEnrollment(db: Database, req: EnrollRequest, now: Time) returns (resp: Response<Enrollment>)
    modifies db
    ensures (db.Snapshot(), resp) == Enroll(old(db.Snapshot()), req, now)
  {
    if !Given(req.userId) || !Given(req.courseId) {
      return Failure(BAD_REQUEST, MISSING_IDS);
    }
    var u, c := req.userId.value, req.courseId.value;
    if c !in db.courses || !db.courses[c].isPublished {
      return Failure(NOT_FOUND, COURSE_NOT_FOUND);
    }
    if IsEnrolled(db.enrollments, u, c) {
      return Failure(CONFLICT, ALREADY_ENROLLED);
    }
    var e := Enrollment(u, c, now, None);
    db.enrollments := db.enrollments + [e];
    resp := Success(CREATED, e);
  }

  /**
   * GET /api/enrollments: 400 without a userId (a query-string value; any
   * present value is a non-empty string), otherwise the user's enrollments in
   * published courses with their progress, newest enrollment first.
   */
  function ListEnrollments(t: Tables, userId: Option<Id>): (r: Response<seq<CourseProgress>>)
    ensures r.Failure? <==> userId.None?
    ensures r.Failure? ==> r == Failure(BAD_REQUEST, MISSING_USER)
    ensures r.Success? ==>
      && r.status == OK
      && Ordering.SortedBy(r.data, LaterFirst)
      && multiset(r.data) == multiset(EnrolledCourseRows(t, userId.value))
      && (forall k :: 0 <= k < |r.data| ==> r.data[k].progress == r.data[k].progressPercentage <= 100)
  {
    if userId.None? then Failure(BAD_REQUEST, MISSING_USER)
    else
      var rows := EnrolledCourseRows(t, userId.value);
      LaterFirstIsTotalPreorder();
      Ordering.SortSorted(rows, LaterFirst);
      var sorted := Ordering.Sort(rows, LaterFirst);
      assert forall k :: 0 <= k < |sorted| ==> sorted[k] in multiset(rows);
      Success(OK, sorted)
  }
}
