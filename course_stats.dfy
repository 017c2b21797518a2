/**
 * Per-course progress as the enrollments listing and the dashboard compute it:
 * the course's lesson count, the user's completed-lesson count and the rounded
 * percentage.
 */
module CourseStats {
  import opened Tables
  import Ordering

  /**
   * ROUND(completed * 100.0 / total) when total > 0, else 0. For non-negative
   * values PostgreSQL's ROUND rounds halves up.
   */
  function Percentage(completed: nat, total: nat): (p: nat)
    ensures total == 0 ==> p == 0
    ensures total > 0 ==> -(total as int) <= 2 * (100 * completed - p * total) < total
  {
    if total == 0 then 0
    else
      var p := (200 * completed + total) / (2 * total);
      assert 2 * total * p <= 200 * completed + total < 2 * total * p + 2 * total;
      p
  }

  lemma ScaleAtLeast(p: int, k: int, total: nat)
    requires p >= k
    ensures p * total >= k * total
  {
    assert (p - k) * total >= 0;
  }

  /** The percentage lies in 0..100 when no more lessons are completed than exist. */
  lemma PercentageAtMostHundred(completed: nat, total: nat)
    requires completed <= total
    ensures Percentage(completed, total) <= 100
  {
    var p := Percentage(completed, total);
    if total > 0 && p > 100 {
      ScaleAtLeast(p, 101, total);
    }
  }

  /** Every lesson completed is 100 percent. */
  lemma PercentageAllDone(total: nat)
    ensures total > 0 ==> Percentage(total, total) == 100
  {
    var p := Percentage(total, total);
    if total > 0 && p < 100 {
      ScaleAtLeast(99, p, total);
    } else if total > 0 && p > 100 {
      ScaleAtLeast(p, 101, total);
    }
  }

  /** Two of three lessons completed is 67 percent. */
  lemma TwoOfThree()
    ensures Percentage(2, 3) == 67
  {
  }

  /** Rounding can reach 100 before every lesson is done: 200 of 201 lessons is 100 percent. */
  lemma HundredBeforeCompletion()
    ensures Percentage(200, 201) == 100
  {
  }

  /** The lessons of course c (published or not: the queries do not filter them). */
  function CourseLessons(lessons: map<Id, Lesson>, c: Id): set<Id> {
    set l | l in lessons && lessons[l].courseId == c
  }

  predicate CompletedBy(progress: seq<ProgressRow>, u: Id, l: Id) {
    exists i :: 0 <= i < |progress| && progress[i].userId == u && progress[i].lessonId == l && progress[i].isCompleted
  }

  /** The lessons of course c that user u has a completed progress row for. */
  function CompletedLessons(t: Tables, u: Id, c: Id): (s: set<Id>)
    ensures s <= CourseLessons(t.lessons, c)
    ensures |s| <= |CourseLessons(t.lessons, c)|
  {
    var s := set l | l in CourseLessons(t.lessons, c) && CompletedBy(t.progress, u, l);
    SubsetSize(s, CourseLessons(t.lessons, c));
    s
  }

  lemma {:induction false} SubsetSize<T>(a: set<T>, b: set<T>)
    requires a <= b
    ensures |a| <= |b|
    decreases |b|
  {
    if a != {} {
      var x :| x in a;
      SubsetSize(a - {x}, b - {x});
    }
  }

  /** One row of the enrolled-courses listing. progress is `parseInt(progress_percentage) || 0`. */
  datatype CourseProgress = CourseProgress(
    courseId: Id,
    enrolledAt: Time,
    totalLessons: nat,
    completedLessons: nat,
    progressPercentage: nat,
    progress: nat)

  /**
   * The listing row for enrollment e of user u. With one progress row per
   * (user, lesson), COUNT(l.id) over the lesson/progress join is the number of
   * the course's lessons and the completed count is the number of those the
   * user completed.
   */
  function ProgressRowFor(t: Tables, u: Id, e: Enrollment): (r: CourseProgress)
    ensures r.courseId == e.courseId && r.enrolledAt == e.enrolledAt
    ensures r.totalLessons == |CourseLessons(t.lessons, e.courseId)|
    ensures r.completedLessons == |CompletedLessons(t, u, e.courseId)|
    ensures r.progressPercentage == Percentage(r.completedLessons, r.totalLessons)
    ensures r.completedLessons <= r.totalLessons
    ensures r.progress == r.progressPercentage <= 100
    ensures r.totalLessons == 0 ==> r.progress == 0
    ensures r.progress == 100 <== 0 < r.totalLessons == r.completedLessons
  {
    var total := |CourseLessons(t.lessons, e.courseId)|;
    var done := |CompletedLessons(t, u, e.courseId)|;
    PercentageAtMostHundred(done, total);
    PercentageAllDone(total);
    var pct := Percentage(done, total);
    CourseProgress(e.courseId, e.enrolledAt, total, done, pct, pct)
  }

  /** The enrollment is user u's and its course row exists and is published. */
  predicate Listed(t: Tables, u: Id, e: Enrollment) {
    e.userId == u && e.courseId in t.courses && t.courses[e.courseId].isPublished
  }

  /** The enrollments the listing joins: user u's, in published courses, in table order. */
  function ListedEnrollments(t: Tables, u: Id, rows: seq<Enrollment>): (r: seq<Enrollment>)
    ensures |r| <= |rows|
    ensures forall e :: e in r <==> e in rows && Listed(t, u, e)
  {
    if rows == [] then []
    else (if Listed(t, u, rows[0]) then [rows[0]] else []) + ListedEnrollments(t, u, rows[1..])
  }

  /** The user's enrollments in published courses, each with its progress. */
  function EnrolledCourseRows(t: Tables, u: Id): (r: seq<CourseProgress>)
    ensures |r| == |ListedEnrollments(t, u, t.enrollments)|
    ensures forall x :: x in r <==> exists e :: e in t.enrollments && Listed(t, u, e) && x == ProgressRowFor(t, u, e)
  {
    var m := ListedEnrollments(t, u, t.enrollments);
    var r := seq(|m|, i requires 0 <= i < |m| => ProgressRowFor(t, u, m[i]));
    assert forall e :: e in m ==> ProgressRowFor(t, u, e) in r by {
      forall e | e in m ensures ProgressRowFor(t, u, e) in r {
        var i :| 0 <= i < |m| && m[i] == e;
        assert r[i] == ProgressRowFor(t, u, e);
      }
    }
    r
  }

  /** ORDER BY e.enrolled_at DESC: a may be listed before b when it is no older. */
  predicate LaterFirst(a: CourseProgress, b: CourseProgress) {
    a.enrolledAt >= b.enrolledAt
  }

  lemma LaterFirstIsTotalPreorder()
    ensures Ordering.TotalPreorder(LaterFirst)
  {
  }
}
