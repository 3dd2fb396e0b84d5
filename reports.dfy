/**
 * The reports page shows summary counts. The enrollment count is computed on
 * the page: the length of the fetched enrollment list once it has arrived
 * (an empty list counts as 0), and until then the backend's total, or 0.
 * The other counts are the backend's counters with a 0 fallback.
 */
module Reports {
  import opened JsValues
  import opened Stats

  /**
   * `enrollments ? enrollments.length : (stats?.totalEnrollments || 0)`.
   * Any fetched array is truthy, so a present list is always counted.
   */
  function EnrollmentCount<E>(enrollments: Option<seq<E>>, stats: Option<DashboardStats>): (n: int)
    ensures enrollments.Some? ==> n == |enrollments.value|
    ensures enrollments.None? ==> n == CountOrZero(stats, TotalEnrollments)
  {
    if enrollments.Some? then |enrollments.value| else CountOrZero(stats, TotalEnrollments)
  }

  /** Once the list is present the statistics play no part. */
  lemma CountIgnoresStats<E>(enrollments: seq<E>, s1: Option<DashboardStats>, s2: Option<DashboardStats>)
    ensures EnrollmentCount(Some(enrollments), s1) == EnrollmentCount(Some(enrollments), s2)
  {
  }

  /** A fetched empty list shows 0, even when the backend reports enrollments. */
  lemma EmptyListShowsZero<E>(stats: Option<DashboardStats>)
    ensures EnrollmentCount<E>(Some([]), stats) == 0
  {
  }

  /** Before the list arrives, a non-zero backend total is shown as it is. */
  lemma FallbackToTotal<E>(stats: DashboardStats, total: int)
    requires stats.totalEnrollments == Some(total) && total != 0
    ensures EnrollmentCount<E>(None, Some(stats)) == total
  {
  }

  /** The numbers the page renders. */
  datatype ReportView = ReportView(
    totalStudents: int,
    totalEnrollments: int,
    activeCourses: int,
    recentEnrollments: int)

  /**
   * The summary cards and the "Recent Enrollments" card. The average card is
   * floating-point formatting and is not part of this view.
   */
  function Report<E>(stats: Option<DashboardStats>, enrollments: Option<seq<E>>): (v: ReportView)
    ensures v.totalEnrollments == v.recentEnrollments
    ensures v.totalEnrollments == EnrollmentCount(enrollments, stats)
    ensures v.totalStudents == CountOrZero(stats, TotalStudents)
    ensures v.activeCourses == CountOrZero(stats, ActiveCourses)
  {
    var count := EnrollmentCount(enrollments, stats);
    ReportView(CountOrZero(stats, TotalStudents), count, CountOrZero(stats, ActiveCourses), count)
  }

  /** Without statistics and without the list, every number on the page is 0. */
  lemma NothingFetchedShowsZeros<E>()
    ensures Report<E>(None, None) == ReportView(0, 0, 0, 0)
  {
  }
}
