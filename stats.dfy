/**
 * The summary record served by the dashboard statistics endpoint, as the
 * dashboard and reports pages read it. The request may not have answered
 * yet (`stats` is undefined) and any counter may be missing.
 */
module Stats {
  import opened JsValues

  datatype DashboardStats = DashboardStats(
    totalStudents: Option<int>,
    activeCourses: Option<int>,
    totalEnrollments: Option<int>,
    averageGrade: Option<real>)

  /** The integer counters of the record. */
  datatype Counter = TotalStudents | ActiveCourses | TotalEnrollments

  /** `stats?.<counter>`: undefined when the record itself is missing. */
  function Reported(stats: Option<DashboardStats>, c: Counter): (r: Option<int>)
    ensures stats.None? ==> r.None?
    ensures stats.Some? && c == TotalStudents ==> r == stats.value.totalStudents
    ensures stats.Some? && c == ActiveCourses ==> r == stats.value.activeCourses
    ensures stats.Some? && c == TotalEnrollments ==> r == stats.value.totalEnrollments
  {
    if stats.None? then None
    else match c
      case TotalStudents => stats.value.totalStudents
      case ActiveCourses => stats.value.activeCourses
      case TotalEnrollments => stats.value.totalEnrollments
  }

  /**
   * `stats?.<counter> || 0`: the backend's value, or 0 when the record or the
   * counter is missing or the counter is 0.
   */
  function CountOrZero(stats: Option<DashboardStats>, c: Counter): (n: int)
    ensures stats.None? ==> n == 0
    ensures n != 0 <==> Reported(stats, c).Some? && Reported(stats, c).value != 0
    ensures n != 0 ==> Reported(stats, c) == Some(n)
  {
    OrZero(Reported(stats, c))
  }
}
