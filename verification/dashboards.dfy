/** The three landing pages: the admin dashboard's user and attendance counts,
    the teacher dashboard's present/absent figures and today's overview, and
    the home page's recent history.
 */
module Dashboards {
  import opened Common
  import opened Model
  import opened SessionGate
  import opened RecordStore

  function HasRole(role: string): User -> bool {
    (u: User) => u.role == Some(role)
  }

  /** Users whose role is none of the three known ones, or missing. */
  function HasOtherRole(): User -> bool {
    (u: User) => u.role != Some(StudentRole) && u.role != Some(TeacherRole) && u.role != Some(AdminRole)
  }

  // ----- admin dashboard -----

  datatype AdminStats = AdminStats(
    totalUsers: nat,
    students: nat,
    teachers: nat,
    admins: nat,
    todayAttendance: nat,
    totalAttendanceRecords: nat)

  /** The admin dashboard's figures, from the `users` and `attendance` entries. */
  function ComputeAdminStats(s: Store, today: Day): (st: AdminStats)
    ensures st.totalUsers == |Users(s)| && st.totalAttendanceRecords == |Records(s)|
    ensures st.students == Count(Users(s), HasRole(StudentRole))
    ensures st.teachers == Count(Users(s), HasRole(TeacherRole))
    ensures st.admins == Count(Users(s), HasRole(AdminRole))
    ensures st.students + st.teachers + st.admins + Count(Users(s), HasOtherRole()) == st.totalUsers
    ensures st.todayAttendance <= st.totalAttendanceRecords
    ensures st.todayAttendance == |RecordsOn(Records(s), today)|
    ensures s.users.None? ==> st.totalUsers == 0 && st.students == 0 && st.teachers == 0 && st.admins == 0
    ensures s.attendance.None? ==> st.todayAttendance == 0 && st.totalAttendanceRecords == 0
  {
    var users := Users(s);
    var records := Records(s);
    RoleCountsPartition(users);
    AdminStats(
      |users|,
      Count(users, HasRole(StudentRole)),
      Count(users, HasRole(TeacherRole)),
      Count(users, HasRole(AdminRole)),
      |RecordsOn(records, today)|,
      |records|)
  }

  /** Every user is counted under exactly one of: student, teacher, admin, other. */
  lemma {:induction false} RoleCountsPartition(users: seq<User>)
    ensures Count(users, HasRole(StudentRole)) + Count(users, HasRole(TeacherRole))
      + Count(users, HasRole(AdminRole)) + Count(users, HasOtherRole()) == |users|
  {
    if |users| > 0 {
      RoleCountsPartition(users[..|users| - 1]);
    }
  }

  datatype AdminView = AdminToLogin | AdminDashboard(user: SessionUser, stats: AdminStats)

  /** Entering the admin dashboard: without a live admin session the page
      redirects and computes nothing. */
  function OpenAdminDashboard(s: Store, today: Day): (v: AdminView)
    ensures v.AdminDashboard? <==> s.auth.Some? && s.auth.value.status && s.auth.value.user.role == Some(AdminRole)
    ensures v.AdminDashboard? ==> v.user == s.auth.value.user && v.stats == ComputeAdminStats(s, today)
  {
    match Enter(AdminDashboardPage, s.auth)
    case ToLogin => AdminToLogin
    case Admitted(user) => AdminDashboard(user, ComputeAdminStats(s, today))
  }

  // ----- teacher dashboard -----

  /** `absentToday` is stored as computed, an unbounded integer. */
  datatype TeacherStats = TeacherStats(totalStudents: nat, presentToday: nat, absentToday: int)

  /** The teacher dashboard's figures as the page computes them: every record
      dated today counts as present, whoever it belongs to, and absent is the
      difference, with no clamp at 0. */
  function ComputeTeacherStats(s: Store, today: Day): (st: TeacherStats)
    ensures st.totalStudents == Count(Users(s), HasRole(StudentRole))
    ensures st.presentToday == |RecordsOn(Records(s), today)|
    ensures st.presentToday + st.absentToday == st.totalStudents
    ensures st.absentToday < 0 <==> st.presentToday > st.totalStudents
  {
    var total := Count(Users(s), HasRole(StudentRole));
    var present := |RecordsOn(Records(s), today)|;
    TeacherStats(total, present, total - present)
  }

  /** Only users with the student role count as students. */
  lemma StudentCountAtMostUsers(s: Store, today: Day)
    ensures ComputeTeacherStats(s, today).totalStudents <= |Users(s)|
  {
    RoleCountsPartition(Users(s));
  }

  /** A student counts as present when some record of theirs is dated `today`. */
  function PresentStudent(records: seq<AttendanceRecord>, today: Day): User -> bool {
    (u: User) => u.role == Some(StudentRole) && HasRecordOn(records, u.id, today)
  }

  function AbsentStudent(records: seq<AttendanceRecord>, today: Day): User -> bool {
    (u: User) => u.role == Some(StudentRole) && !HasRecordOn(records, u.id, today)
  }

  /** The figures the dashboard evidently means: a student is present when
      they have a record dated today and absent otherwise, so both figures
      lie between 0 and the number of students and add up to it. */
  function IntendedTeacherStats(s: Store, today: Day): (st: TeacherStats)
    ensures st.totalStudents == Count(Users(s), HasRole(StudentRole))
    ensures 0 <= st.absentToday <= st.totalStudents
    ensures st.presentToday <= st.totalStudents
    ensures st.presentToday + st.absentToday == st.totalStudents
  {
    var users := Users(s);
    var records := Records(s);
    CountSplit(users, HasRole(StudentRole), (u: User) => HasRecordOn(records, u.id, today),
      PresentStudent(records, today), AbsentStudent(records, today));
    TeacherStats(
      Count(users, HasRole(StudentRole)),
      Count(users, PresentStudent(records, today)),
      Count(users, AbsentStudent(records, today)))
  }

  function UserId(): User -> string {
    (u: User) => u.id
  }

  /** Nobody counts as present exactly when no student has a record dated
      today; absent is then the whole student count. */
  lemma PresentIffSomeStudentRecorded(s: Store, today: Day)
    ensures IntendedTeacherStats(s, today).presentToday == 0 <==>
      forall u :: u in Users(s) && u.role == Some(StudentRole) ==> !HasRecordOn(Records(s), u.id, today)
    ensures IntendedTeacherStats(s, today).presentToday == 0 ==>
      IntendedTeacherStats(s, today).absentToday == IntendedTeacherStats(s, today).totalStudents
  {
    var users, present := Users(s), PresentStudent(Records(s), today);
    FilterEmpty(users, present);
    assert (forall i :: 0 <= i < |users| ==> !present(users[i])) <==>
      (forall u :: u in users ==> !present(u));
  }

  /** Every present student's id is on one of that day's records. */
  lemma PresentIdsRecorded(users: seq<User>, records: seq<AttendanceRecord>, today: Day)
    ensures Keys(Filter(users, PresentStudent(records, today)), UserId()) <= Keys(RecordsOn(records, today), RecordUser())
  {
    var present := Filter(users, PresentStudent(records, today));
    var todays := RecordsOn(records, today);
    forall k | k in Keys(present, UserId()) ensures k in Keys(todays, RecordUser()) {
      var i :| 0 <= i < |present| && UserId()(present[i]) == k;
      FilterMembership(users, PresentStudent(records, today), present[i]);
      assert HasRecordOn(records, k, today);
      var j :| 0 <= j < |records| && records[j].userId == k && records[j].date == today;
      FilterMembership(records, OnDay(today), records[j]);
      var m :| 0 <= m < |todays| && todays[m] == records[j];
      assert RecordUser()(todays[m]) == k;
    }
  }

  /** When every record of the day names a student, each of its user ids is
      a present student's. */
  lemma RecordedIdsPresent(users: seq<User>, records: seq<AttendanceRecord>, today: Day)
    requires forall rec :: rec in records && rec.date == today ==>
      exists u :: u in users && u.id == rec.userId && u.role == Some(StudentRole)
    ensures Keys(RecordsOn(records, today), RecordUser()) <= Keys(Filter(users, PresentStudent(records, today)), UserId())
  {
    var present := Filter(users, PresentStudent(records, today));
    var todays := RecordsOn(records, today);
    forall k | k in Keys(todays, RecordUser()) ensures k in Keys(present, UserId()) {
      var m :| 0 <= m < |todays| && RecordUser()(todays[m]) == k;
      var rec := todays[m];
      FilterMembership(records, OnDay(today), rec);
      var u :| u in users && u.id == k && u.role == Some(StudentRole);
      var j :| 0 <= j < |records| && records[j] == rec;
      assert HasRecordOn(records, u.id, today);
      FilterMembership(users, PresentStudent(records, today), u);
      var i :| 0 <= i < |present| && present[i] == u;
      assert UserId()(present[i]) == k;
    }
  }

  /** With one record per user and day, the records of one day name
      pairwise different users. */
  lemma OneDayDistinctUsers(records: seq<AttendanceRecord>, today: Day)
    requires OnePerUserPerDay(records)
    ensures DistinctKeys(RecordsOn(records, today), RecordUser())
  {
    var todays := RecordsOn(records, today);
    assert DistinctKeys(records, UserAndDay());
    FilterKeepsDistinct(records, OnDay(today), UserAndDay());
    forall i, j | 0 <= i < j < |todays| ensures todays[i].userId != todays[j].userId {
      assert UserAndDay()(todays[i]) != UserAndDay()(todays[j]);
    }
  }

  /** On well-formed storage the page's own figures are the intended ones:
      when user ids are distinct, nobody has two records on one day, and each
      of today's records belongs to a student, every record dated today is a
      different present student. */
  lemma IntendedMatchesComputed(s: Store, today: Day)
    requires DistinctKeys(Users(s), UserId())
    requires OnePerUserPerDay(Records(s))
    requires forall rec :: rec in Records(s) && rec.date == today ==>
      exists u :: u in Users(s) && u.id == rec.userId && u.role == Some(StudentRole)
    ensures IntendedTeacherStats(s, today) == ComputeTeacherStats(s, today)
  {
    var users, records := Users(s), Records(s);
    var present := Filter(users, PresentStudent(records, today));
    FilterKeepsDistinct(users, PresentStudent(records, today), UserId());
    DistinctKeysCount(present, UserId());
    OneDayDistinctUsers(records, today);
    DistinctKeysCount(RecordsOn(records, today), RecordUser());
    PresentIdsRecorded(users, records, today);
    RecordedIdsPresent(users, records, today);
    assert Keys(present, UserId()) == Keys(RecordsOn(records, today), RecordUser());
    assert IntendedTeacherStats(s, today).presentToday == ComputeTeacherStats(s, today).presentToday;
  }

  datatype TeacherView = TeacherToLogin | TeacherDashboard(user: SessionUser, stats: TeacherStats)

  /** Entering the teacher dashboard: only a live teacher session gets in.
      The figures shown are the corrected ones, never negative. */
  function OpenTeacherDashboard(s: Store, today: Day): (v: TeacherView)
    ensures v.TeacherDashboard? <==> s.auth.Some? && s.auth.value.status && s.auth.value.user.role == Some(TeacherRole)
    ensures v.TeacherDashboard? ==> v.user == s.auth.value.user && v.stats == IntendedTeacherStats(s, today)
    ensures v.TeacherDashboard? ==> v.stats.totalStudents == ComputeTeacherStats(s, today).totalStudents
    ensures v.TeacherDashboard? ==> 0 <= v.stats.absentToday <= v.stats.totalStudents
  {
    match Enter(TeacherDashboardPage, s.auth)
    case ToLogin => TeacherToLogin
    case Admitted(user) => TeacherDashboard(user, IntendedTeacherStats(s, today))
  }

  /** Today's overview: at most five of today's records. The page sorts them
      by `new Date(time)` of a bare time of day, which is not a date; no
      ordering is claimed, and the model keeps the stored order. */
  function TodayOverview(records: seq<AttendanceRecord>, today: Day): (r: seq<AttendanceRecord>)
    ensures |r| == Min(|RecordsOn(records, today)|, 5)
    ensures forall i :: 0 <= i < |r| ==> r[i].date == today
    ensures multiset(r) <= multiset(records)
  {
    var todays := RecordsOn(records, today);
    var r := Take(todays, 5);
    PrefixMultiset(todays, |r|);
    r
  }

  // ----- home page -----

  /** The home page's history: the session user's three newest records, the
      first three of a newest-first ordering of all of them. */
  function RecentHistory(s: Store, user: SessionUser): (r: seq<AttendanceRecord>)
    ensures |r| <= 3
    ensures forall i :: 0 <= i < |r| ==> r[i].userId == user.id
    ensures NewestFirst(r)
    ensures multiset(r) <= multiset(Records(s))
    ensures |r| == Min(Count(Records(s), OfUser(user.id)), 3)
    ensures exists rest :: NewestFirst(r + rest) && multiset(r + rest) == multiset(Filter(Records(s), OfUser(user.id)))
  {
    History(Records(s), user.id, 3)
  }
}
