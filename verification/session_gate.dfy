/** The check every page runs on entry (read `auth`, redirect to the login
    page when there is no live session or the role does not fit) and the
    logout handler the pages share.
 */
module SessionGate {
  import opened Common
  import opened Model

  const LoginRoute: string := "/login"
  const HomeRoute: string := "/"
  const TeacherDashboardRoute: string := "/teacher-dashboard"
  const AdminDashboardRoute: string := "/admin-dashboard"
  const AttendanceSuccessRoute: string := "/attendance-success"

  /** The pages that consult the session on entry. */
  datatype Page =
    | HomePage
    | ProtectedPage
    | AttendancePage
    | AdminDashboardPage
    | TeacherDashboardPage
    | TimetablePage

  /** The role a page insists on, if any: the admin pages and the teacher
      dashboard compare `authData.user.role`; the others only look at `status`. */
  function RequiredRole(p: Page): Option<string> {
    match p
    case AdminDashboardPage => Some(AdminRole)
    case TimetablePage => Some(AdminRole)
    case TeacherDashboardPage => Some(TeacherRole)
    case _ => None
  }

  /** Whether a session user with `role` passes the role check of `p`. */
  predicate RoleFits(p: Page, role: Option<string>) {
    RequiredRole(p).None? || role == RequiredRole(p)
  }

  /** The outcome of a page's entry check: sent to the login page with no
      user set, or admitted with the session's user. */
  datatype Entry = ToLogin | Admitted(user: SessionUser)

  /** The entry check of page `p` against the `auth` entry. */
  function Enter(p: Page, auth: Option<Session>): (e: Entry)
    ensures e.Admitted? <==> auth.Some? && auth.value.status && RoleFits(p, auth.value.user.role)
    ensures e.Admitted? ==> e.user == auth.value.user
  {
    if auth.None? then ToLogin
    else if !auth.value.status then ToLogin
    else if RequiredRole(p).Some? && auth.value.user.role != RequiredRole(p) then ToLogin
    else Admitted(auth.value.user)
  }

  /** The pages that offer a logout button. */
  predicate HasLogout(p: Page) {
    p in {HomePage, ProtectedPage, AdminDashboardPage, TeacherDashboardPage}
  }

  /** Where logging out leads: the attendance page with history sends the user
      home, the others to the login page. */
  function LogoutRoute(p: Page): (r: string)
    requires HasLogout(p)
    ensures r == HomeRoute <==> p == ProtectedPage
    ensures r == LoginRoute <==> p != ProtectedPage
  {
    if p == ProtectedPage then HomeRoute else LoginRoute
  }

  /** `localStorage.removeItem("auth")`: every other key keeps its value. */
  function Logout(s: Store): (r: Store)
    ensures r.auth.None?
    ensures r.users == s.users && r.attendance == s.attendance
    ensures r.timetable == s.timetable && r.lectureAttendance == s.lectureAttendance
  {
    s.(auth := None)
  }

  /** Logging out twice leaves the same storage as logging out once. */
  lemma LogoutIdempotent(s: Store)
    ensures Logout(Logout(s)) == Logout(s)
  {
  }

  /** After a logout, whichever page is opened next redirects to the login page. */
  lemma LogoutLocksEveryPage(s: Store, p: Page)
    ensures Enter(p, Logout(s).auth) == ToLogin
  {
  }

  /** Pages without a role requirement never look at the role. */
  lemma UngatedPagesIgnoreRole(p: Page, s: Session, role: Option<string>)
    requires RequiredRole(p).None?
    ensures Enter(p, Some(s)) == (if s.status then Admitted(s.user) else ToLogin)
    ensures Enter(p, Some(s.(user := s.user.(role := role)))).Admitted? == s.status
  {
  }
}
