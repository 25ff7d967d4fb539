/** The start-up seeding of the demo data: ten accounts and twelve attendance
    records over the last three days, each written only when its key is absent.
 */
module Seed {
  import opened Common
  import opened Model
  import opened RecordStore
  import opened Dashboards

  const SeedPassword: string := "password123"

  /** The ten demo accounts, all with the same password. None of them
      carries a role. */
  function SeedUsers(): (r: seq<User>)
    ensures |r| == 10
    ensures forall i :: 0 <= i < |r| ==> r[i].password == SeedPassword && r[i].role.None?
  {
    [
      User("1", "John Doe", "CS001", "john@example.com", SeedPassword, None),
      User("2", "Jane Smith", "CS002", "jane@example.com", SeedPassword, None),
      User("3", "Bob Johnson", "CS003", "bob@example.com", SeedPassword, None),
      User("4", "Alice Brown", "CS004", "alice@example.com", SeedPassword, None),
      User("5", "Charlie Wilson", "CS005", "charlie@example.com", SeedPassword, None),
      User("6", "Diana Prince", "CS006", "diana@example.com", SeedPassword, None),
      User("7", "Edward Norton", "CS007", "edward@example.com", SeedPassword, None),
      User("8", "Fiona Green", "CS008", "fiona@example.com", SeedPassword, None),
      User("9", "George Miller", "CS009", "george@example.com", SeedPassword, None),
      User("10", "Helen Davis", "CS010", "helen@example.com", SeedPassword, None)
    ]
  }

  /** A seeded record for the `n`-th demo account (1-based). */
  function SeedRecord(id: string, n: nat, date: Day, time: string): AttendanceRecord
    requires 1 <= n <= |SeedUsers()|
  {
    var u := SeedUsers()[n - 1];
    AttendanceRecord(id, u.id, u.name, u.rollNumber, date, time, PresentStatus)
  }

  /** The twelve demo records: users 1-3 today, users 1, 2, 4, 5 yesterday,
      users 1, 2, 3, 4, 6 two days ago. Yesterday is `today - 1`: the source
      subtracts 86400000 ms and takes the UTC date. */
  function SeedAttendance(today: Day): (r: seq<AttendanceRecord>)
    ensures |r| == 12
    ensures forall k :: 0 <= k < |r| ==> today - 2 <= r[k].date <= today
    ensures forall k :: 0 <= k < |r| ==> r[k].status == PresentStatus
  {
    var yesterday := today - 1;
    var twoDaysAgo := today - 2;
    [
      SeedRecord("att_1", 1, today, "09:15:30"),
      SeedRecord("att_2", 2, today, "09:22:45"),
      SeedRecord("att_3", 3, today, "09:30:12"),
      SeedRecord("att_4", 1, yesterday, "09:10:25"),
      SeedRecord("att_5", 2, yesterday, "09:18:40"),
      SeedRecord("att_6", 4, yesterday, "09:25:55"),
      SeedRecord("att_7", 5, yesterday, "09:35:20"),
      SeedRecord("att_8", 1, twoDaysAgo, "09:05:15"),
      SeedRecord("att_9", 2, twoDaysAgo, "09:12:30"),
      SeedRecord("att_10", 3, twoDaysAgo, "09:20:45"),
      SeedRecord("att_11", 4, twoDaysAgo, "09:28:10"),
      SeedRecord("att_12", 6, twoDaysAgo, "09:15:35")
    ]
  }

  /** The start-up initialiser: each of `users` and `attendance` is written
      only when absent; an existing value, and every other key, is untouched. */
  function Initialize(s: Store, today: Day): (r: Store)
    ensures s.users.Some? ==> r.users == s.users
    ensures s.users.None? ==> r.users == Some(SeedUsers())
    ensures s.attendance.Some? ==> r.attendance == s.attendance
    ensures s.attendance.None? ==> r.attendance == Some(SeedAttendance(today))
    ensures r.auth == s.auth && r.timetable == s.timetable && r.lectureAttendance == s.lectureAttendance
  {
    var withUsers := if s.users.None? then s.(users := Some(SeedUsers())) else s;
    if withUsers.attendance.None? then withUsers.(attendance := Some(SeedAttendance(today))) else withUsers
  }

  /** Running the initialiser again, on any day, changes nothing. */
  lemma InitializeIdempotent(s: Store, today: Day, later: Day)
    ensures Initialize(Initialize(s, today), later) == Initialize(s, today)
  {
  }

  /** The demo accounts have pairwise different ids and roll numbers. */
  lemma SeedUsersDistinct()
    ensures forall i, j :: 0 <= i < j < |SeedUsers()| ==> SeedUsers()[i].id != SeedUsers()[j].id
    ensures forall i, j :: 0 <= i < j < |SeedUsers()| ==> SeedUsers()[i].rollNumber != SeedUsers()[j].rollNumber
    ensures forall i :: 0 <= i < |SeedUsers()| ==> SeedUsers()[i].role.None?
  {
  }

  /** The demo records hold at most one per account and day. */
  lemma SeedAttendanceOnePerDay(today: Day)
    ensures OnePerUserPerDay(SeedAttendance(today))
  {
  }

  /** The demo records: at most one per account and day, each naming a demo
      account by id with that account's name and roll number, all "present". */
  lemma SeedAttendanceWellFormed(today: Day)
    ensures OnePerUserPerDay(SeedAttendance(today))
    ensures forall k :: 0 <= k < |SeedAttendance(today)| ==>
      var rec := SeedAttendance(today)[k];
      && rec.status == PresentStatus
      && exists n :: 0 <= n < |SeedUsers()| && SeedUsers()[n].id == rec.userId
           && SeedUsers()[n].name == rec.userName && SeedUsers()[n].rollNumber == rec.rollNumber
  {
    SeedAttendanceOnePerDay(today);
  }

  /** No demo account has the student role. */
  lemma SeedHasNoStudents()
    ensures Count(SeedUsers(), HasRole(StudentRole)) == 0
  {
    SeedUsersDistinct();
    FilterEmpty(SeedUsers(), HasRole(StudentRole));
  }

  /** Records dated `day` followed by records dated otherwise: exactly the
      first part is listed for that day. */
  lemma DatedPrefix(head: seq<AttendanceRecord>, tail: seq<AttendanceRecord>, day: Day)
    requires forall i :: 0 <= i < |head| ==> head[i].date == day
    requires forall i :: 0 <= i < |tail| ==> tail[i].date != day
    ensures |RecordsOn(head + tail, day)| == |head|
  {
    FilterConcat(head, tail, OnDay(day));
    FilterAll(head, OnDay(day));
    FilterEmpty(tail, OnDay(day));
  }

  /** Three of the demo records are dated the seeding day. */
  lemma SeedTodayCount(today: Day)
    ensures |RecordsOn(SeedAttendance(today), today)| == 3
  {
    var a := SeedAttendance(today);
    assert a == a[..3] + a[3..];
    DatedPrefix(a[..3], a[3..], today);
  }

  /** On a freshly seeded store the teacher dashboard shows -3 absent students:
      no demo account has the student role, yet three records are dated today.
      The intended figures stay at 0. */
  lemma SeededDashboardShowsNegativeAbsent(today: Day)
    ensures ComputeTeacherStats(Initialize(EmptyStore, today), today).absentToday == -3
    ensures IntendedTeacherStats(Initialize(EmptyStore, today), today).absentToday == 0
  {
    SeedHasNoStudents();
    SeedTodayCount(today);
  }
}
