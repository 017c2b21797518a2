/**
 * GET /api/user-dashboard: a read-only aggregation over the store. Statistics
 * (enrollments, completed courses, certificates), the twelve most recent
 * enrolled courses with progress, and the next eight enrolled webinars with
 * their join eligibility.
 */
module Dashboard {
  import opened Wrappers
  import opened Tables
  import opened CourseStats
  import Ordering
  import Text

  /** The abstract clock: CURRENT_DATE as a day number and CURRENT_TIME as a time of day. */
  datatype Clock = Clock(today: int, timeOfDay: int)

  datatype Stats = Stats(totalCourses: nat, completedCourses: nat, totalCertificates: nat)

  datatype WebinarView = WebinarView(
    webinarId: Id,
    enrolledAt: Time,
    scheduledDate: int,
    startTime: int,
    endTime: int,
    canJoinNow: bool,
    hasJoinButton: bool)

  datatype DashboardData = DashboardData(
    stats: Stats,
    enrolledCourses: seq<CourseProgress>,
    enrolledWebinars: seq<WebinarView>)

  const DEFAULT_USER: Id := 1
  const COURSE_LIMIT: nat := 12
  const WEBINAR_LIMIT: nat := 8

  /** `searchParams.get('userId') || 1`: an absent (or empty) userId means user 1. */
  function DashboardUser(userId: Option<Id>): (u: Id)
    ensures userId.None? ==> u == DEFAULT_USER
    ensures userId.Some? ==> u == userId.value
  {
    userId.GetOr(DEFAULT_USER)
  }

  // ---- statistics ----

  /**
   * The completed-courses query's HAVING test for an enrolled course c: the
   * course row exists, the inner join on lessons gives it at least one lesson,
   * and the lesson count equals the completed-lesson count.
   */
  predicate CourseComplete(t: Tables, u: Id, c: Id) {
    && c in t.courses
    && |CourseLessons(t.lessons, c)| > 0
    && |CompletedLessons(t, u, c)| == |CourseLessons(t.lessons, c)|
  }

  /** The groups the completed-courses query returns: one per completed enrolled course. */
  function CompletedCourseIds(t: Tables, u: Id): (s: set<Id>)
    ensures s <= EnrolledCourseIds(t.enrollments, u)
  {
    set c | c in EnrolledCourseIds(t.enrollments, u) && CourseComplete(t, u, c)
  }

  /**
   * The statistics the dashboard means to show: the user's enrollments, the
   * completed enrolled courses, and the user's certificates.
   */
  function ComputeStats(t: Tables, u: Id): (s: Stats)
    ensures s.totalCourses <= |t.enrollments| && s.totalCertificates <= |t.certificates|
    ensures s.completedCourses <= |EnrolledCourseIds(t.enrollments, u)|
    ensures s.totalCourses > 0 <==> exists i :: 0 <= i < |t.enrollments| && t.enrollments[i].userId == u
    ensures s.totalCertificates > 0 <==> exists i :: 0 <= i < |t.certificates| && t.certificates[i].userId == u
  {
    SubsetSize(CompletedCourseIds(t, u), EnrolledCourseIds(t.enrollments, u));
    Stats(CountOwnedBy(t.enrollments, EnrollmentUser, u), |CompletedCourseIds(t, u)|, CountOwnedBy(t.certificates, CertificateUser, u))
  }

  // ---- reading the statistics transaction ----

  /**
   * The JavaScript values the statistics code reads: numbers, objects (result
   * rows, keyed by column name), arrays (result sets) and undefined. COUNT
   * values are taken to arrive as numbers.
   */
  datatype JsValue = Undefined | Num(n: int) | Obj(fields: map<string, JsValue>) | Arr(items: seq<JsValue>)

  /** v?.[i]: an array element, or an object's property named by the decimal digits of i. */
  function Element(v: JsValue, i: nat): (r: JsValue)
    ensures v.Arr? ==> r == if i < |v.items| then v.items[i] else Undefined
    ensures v.Undefined? || v.Num? ==> r == Undefined
  {
    match v
    case Arr(items) => if i < |items| then items[i] else Undefined
    case Obj(fields) => if Text.Decimal(i) in fields then fields[Text.Decimal(i)] else Undefined
    case _ => Undefined
  }

  /** v?.name on an object; undefined for anything without that property. */
  function Property(v: JsValue, name: string): (r: JsValue)
    ensures r != Undefined <==> v.Obj? && name in v.fields && v.fields[name] != Undefined
  {
    if v.Obj? && name in v.fields then v.fields[name] else Undefined
  }

  /** v?.length: an array's length; anything else is read as a property. */
  function Length(v: JsValue): (r: JsValue)
    ensures v.Arr? ==> r == Num(|v.items|)
    ensures v.Undefined? ==> r == Undefined
  {
    if v.Arr? then Num(|v.items|) else Property(v, "length")
  }

  predicate Truthy(v: JsValue) {
    match v
    case Undefined => false
    case Num(n) => n != 0
    case _ => true
  }

  /** `v || 0`. */
  function OrZero(v: JsValue): (r: JsValue)
    ensures v.Num? ==> r == v
    ensures !Truthy(v) ==> r == Num(0)
  {
    if Truthy(v) then v else Num(0)
  }

  /** The three statistics as the route reads them, before they are known to be numbers. */
  datatype StatsRead = StatsRead(totalCourses: JsValue, completedCourses: JsValue, totalCertificates: JsValue)

  /** The statistics lines of the route applied to a value named statsResult. */
  function ReadStats(statsResult: JsValue): StatsRead {
    StatsRead(
      OrZero(Property(Element(Element(statsResult, 0), 0), "total_courses")),
      OrZero(Length(Element(statsResult, 1))),
      OrZero(Property(Element(Element(statsResult, 2), 0), "total_certificates")))
  }

  /**
   * The rows of the four statistics queries, in order: one COUNT row, one row
   * per completed course group, one COUNT row, and the constant quiz row.
   */
  function StatsQueryResults(t: Tables, u: Id): (r: seq<JsValue>)
    ensures |r| == 4
  {
    [ Arr([Obj(map["total_courses" := Num(CountOwnedBy(t.enrollments, EnrollmentUser, u))])]),
      Arr(seq(|CompletedCourseIds(t, u)|, _ => Obj(map["completed_courses" := Num(1)]))),
      Arr([Obj(map["total_certificates" := Num(CountOwnedBy(t.certificates, CertificateUser, u))])]),
      Arr([Obj(map["quiz_average" := Num(8), "quiz_total" := Num(10)])]) ]
  }

  /**
   * `const [statsResult] = await sql.transaction([...])`: the transaction
   * resolves to one result per query, so destructuring keeps the first
   * query's rows only, and every statistic then reads as 0.
   */
  function StatsAsWritten(t: Tables, u: Id): StatsRead {
    ReadStats(Element(Arr(StatsQueryResults(t, u)), 0))
  }

  /** As written, the statistics are 0, 0 and 0 whatever the store holds. */
  lemma StatsAsWrittenAreZero(t: Tables, u: Id)
    ensures StatsAsWritten(t, u) == StatsRead(Num(0), Num(0), Num(0))
  {
  }

  /** The route's intended reading: statsResult is the list of all four results. */
  function StatsIntended(t: Tables, u: Id): StatsRead {
    ReadStats(Arr(StatsQueryResults(t, u)))
  }

  /** Read as intended, the statistics are exactly ComputeStats. */
  lemma StatsIntendedAreComputeStats(t: Tables, u: Id)
    ensures var s := ComputeStats(t, u);
      StatsIntended(t, u) == StatsRead(Num(s.totalCourses), Num(s.completedCourses), Num(s.totalCertificates))
  {
  }

  /** A user with an enrollment sees 0 courses as written, and their true count as intended. */
  lemma StatsAsWrittenLoseEnrollments(t: Tables, u: Id, i: nat)
    requires i < |t.enrollments| && t.enrollments[i].userId == u
    ensures StatsAsWritten(t, u).totalCourses == Num(0)
    ensures StatsIntended(t, u).totalCourses == Num(ComputeStats(t, u).totalCourses) != Num(0)
  {
  }

  lemma {:induction false} EqualSizeSubsetIsEqual<T>(a: set<T>, b: set<T>)
    requires a <= b && |a| == |b|
    ensures a == b
  {
    if a != b {
      var x :| x in b && x !in a;
      SubsetSize(a, b - {x});
    }
  }

  /**
   * A course counts as completed exactly when the user is enrolled, the course
   * has at least one lesson, and every one of its lessons (published or not)
   * has a completed progress row; a course without lessons never counts.
   */
  lemma CompletedCoursesAreFullyDone(t: Tables, u: Id, c: Id)
    ensures c in CompletedCourseIds(t, u) <==>
      && IsEnrolled(t.enrollments, u, c)
      && c in t.courses
      && CourseLessons(t.lessons, c) != {}
      && forall l :: l in CourseLessons(t.lessons, c) ==> CompletedBy(t.progress, u, l)
  {
    if c in t.courses && |CourseLessons(t.lessons, c)| > 0 &&
       |CompletedLessons(t, u, c)| == |CourseLessons(t.lessons, c)| {
      EqualSizeSubsetIsEqual(CompletedLessons(t, u, c), CourseLessons(t.lessons, c));
    }
    if forall l :: l in CourseLessons(t.lessons, c) ==> CompletedBy(t.progress, u, l) {
      assert CompletedLessons(t, u, c) == CourseLessons(t.lessons, c);
    }
  }

  /** With one enrollment per pair, completed courses never outnumber enrolled ones. */
  lemma CompletedAtMostTotal(t: Tables, u: Id)
    requires t.Valid()
    ensures ComputeStats(t, u).completedCourses <= ComputeStats(t, u).totalCourses
  {
    EnrollmentCountIsCourseCount(t.enrollments, u);
    SubsetSize(CompletedCourseIds(t, u), EnrolledCourseIds(t.enrollments, u));
  }

  /** A completed course that is published shows 100 percent in the course listing. */
  lemma CompletedCourseShowsFullProgress(t: Tables, u: Id, e: Enrollment)
    requires e.userId == u && e.courseId in CompletedCourseIds(t, u)
    ensures ProgressRowFor(t, u, e).progress == 100
  {
  }

  // ---- webinars ----

  /** can_join_now: the webinar is today and the current time lies between its start and end (inclusive). */
  predicate CanJoinNow(w: Webinar, clock: Clock) {
    w.scheduledDate == clock.today && w.startTime <= clock.timeOfDay <= w.endTime
  }

  /**
   * A webinar can be joined only on its scheduled day; on that day it can be
   * joined at some time exactly when it does not end before it starts, and
   * then at its start and at its end.
   */
  lemma JoinWindow(w: Webinar, today: int)
    ensures today != w.scheduledDate ==> forall time :: !CanJoinNow(w, Clock(today, time))
    ensures today == w.scheduledDate ==>
      ((exists time :: CanJoinNow(w, Clock(today, time))) <==> w.startTime <= w.endTime)
    ensures today == w.scheduledDate && w.startTime <= w.endTime ==>
      CanJoinNow(w, Clock(today, w.startTime)) && CanJoinNow(w, Clock(today, w.endTime))
  {
  }

  function WebinarViewOf(id: Id, w: Webinar, enrolledAt: Time, clock: Clock): WebinarView {
    var join := CanJoinNow(w, clock);
    WebinarView(id, enrolledAt, w.scheduledDate, w.startTime, w.endTime, join, join)
  }

  /** we is user u's enrollment in an existing webinar, and v is the row it yields. */
  predicate EnrolledIn(t: Tables, u: Id, we: WebinarEnrollment, v: WebinarView, clock: Clock) {
    we.userId == u && we.webinarId in t.webinars &&
    v == WebinarViewOf(we.webinarId, t.webinars[we.webinarId], we.enrolledAt, clock)
  }

  /** The user's webinar enrollments joined with their webinars, in table order. */
  function WebinarRows(t: Tables, u: Id, rows: seq<WebinarEnrollment>, clock: Clock): (r: seq<WebinarView>)
    ensures |r| <= |rows|
    ensures forall v :: v in r ==>
      v.webinarId in t.webinars && v == WebinarViewOf(v.webinarId, t.webinars[v.webinarId], v.enrolledAt, clock)
  {
    if rows == [] then []
    else
      var we := rows[0];
      (if we.userId == u && we.webinarId in t.webinars
       then [WebinarViewOf(we.webinarId, t.webinars[we.webinarId], we.enrolledAt, clock)] else [])
      + WebinarRows(t, u, rows[1..], clock)
  }

  /** A row is listed exactly when it comes from one of the user's enrollments in an existing webinar. */
  lemma {:induction false} WebinarRowsMembers(t: Tables, u: Id, rows: seq<WebinarEnrollment>, clock: Clock, v: WebinarView)
    ensures v in WebinarRows(t, u, rows, clock) <==> exists we :: we in rows && EnrolledIn(t, u, we, v, clock)
    decreases |rows|
  {
    if rows != [] {
      var we := rows[0];
      WebinarRowsMembers(t, u, rows[1..], clock, v);
      assert forall x :: x in rows <==> x == we || x in rows[1..] by {
        assert rows == [we] + rows[1..];
      }
      if EnrolledIn(t, u, we, v, clock) {
        assert v in WebinarRows(t, u, rows, clock);
      }
    }
  }

  /** ORDER BY w.scheduled_date ASC, w.start_time ASC. */
  predicate EarlierFirst(a: WebinarView, b: WebinarView) {
    a.scheduledDate < b.scheduledDate || (a.scheduledDate == b.scheduledDate && a.startTime <= b.startTime)
  }

  lemma EarlierFirstIsTotalPreorder()
    ensures Ordering.TotalPreorder(EarlierFirst)
  {
  }

  // ---- the route ----

  /** The enrolledCourses list: ORDER BY e.enrolled_at DESC LIMIT 12. */
  function RecentCourses(t: Tables, u: Id): (r: seq<CourseProgress>)
    ensures var courses := EnrolledCourseRows(t, u);
      && |r| == (if |courses| <= COURSE_LIMIT then |courses| else COURSE_LIMIT)
      && Ordering.SortedBy(r, LaterFirst)
      && multiset(r) <= multiset(courses)
      && forall x, y :: x in r && y in multiset(courses) - multiset(r) ==> LaterFirst(x, y)
  {
    var courses := EnrolledCourseRows(t, u);
    LaterFirstIsTotalPreorder();
    Ordering.TopK(courses, COURSE_LIMIT, LaterFirst);
    Ordering.Take(Ordering.Sort(courses, LaterFirst), COURSE_LIMIT)
  }

  /** The enrolledWebinars list: ORDER BY scheduled_date, start_time LIMIT 8; hasJoinButton is can_join_now. */
  function EarliestWebinars(t: Tables, u: Id, clock: Clock): (r: seq<WebinarView>)
    ensures var webinars := WebinarRows(t, u, t.webinarEnrollments, clock);
      && |r| == (if |webinars| <= WEBINAR_LIMIT then |webinars| else WEBINAR_LIMIT)
      && Ordering.SortedBy(r, EarlierFirst)
      && multiset(r) <= multiset(webinars)
      && (forall x, y :: x in r && y in multiset(webinars) - multiset(r) ==> EarlierFirst(x, y))
      && forall v :: v in r ==>
           v.webinarId in t.webinars && v.hasJoinButton == v.canJoinNow == CanJoinNow(t.webinars[v.webinarId], clock)
  {
    var webinars := WebinarRows(t, u, t.webinarEnrollments, clock);
    EarlierFirstIsTotalPreorder();
    Ordering.TopK(webinars, WEBINAR_LIMIT, EarlierFirst);
    var r := Ordering.Take(Ordering.Sort(webinars, EarlierFirst), WEBINAR_LIMIT);
    assert forall v :: v in r ==> v in webinars by {
      forall v | v in r ensures v in webinars {
        assert v in multiset(r);
      }
    }
    r
  }

  /** GET /api/user-dashboard at clock reading clock. */
  function GetDashboard(t: Tables, userId: Option<Id>, clock: Clock): (d: DashboardData)
    ensures var u := DashboardUser(userId);
      && d.stats == Stats(CountOwnedBy(t.enrollments, EnrollmentUser, u), |CompletedCourseIds(t, u)|, CountOwnedBy(t.certificates, CertificateUser, u))
      && d.enrolledCourses == RecentCourses(t, u)
      && d.enrolledWebinars == EarliestWebinars(t, u, clock)
  {
    var u := DashboardUser(userId);
    DashboardData(ComputeStats(t, u), RecentCourses(t, u), EarliestWebinars(t, u, clock))
  }
}
