/** The entities the application keeps in the browser's key-value storage,
    and the storage itself as a typed record with one optional entry per key.
 */
module Model {
  import opened Common

  /** A calendar day (UTC), as the number of days since an epoch. The source
      stores the ISO string `toISOString().split('T')[0]`; that string names
      exactly one day, and comparing two such strings through `new Date(..)`
      orders them as their day numbers. */
  type Day = int

  /** A stored account. `role` is missing for the seeded accounts. */
  datatype User = User(
    id: string,
    name: string,
    rollNumber: string,
    email: string,
    password: string,
    role: Option<string>)

  /** The public part of a user that a session carries: no password, no email. */
  datatype SessionUser = SessionUser(
    rollNumber: string,
    name: string,
    id: string,
    role: Option<string>)

  /** The `auth` entry. */
  datatype Session = Session(status: bool, user: SessionUser)

  /** One entry of the `attendance` collection. */
  datatype AttendanceRecord = AttendanceRecord(
    id: string,
    userId: string,
    userName: string,
    rollNumber: string,
    date: Day,
    time: string,
    status: string)

  /** A timetable cell's assignment. */
  datatype Lecture = Lecture(teacherId: string, subjectId: string, status: string)

  /** One entry of the `lectureAttendance` event log. */
  datatype LectureEvent = LectureEvent(
    id: string,
    day: string,
    slot: string,
    teacherId: string,
    subjectId: string,
    status: string,
    date: Day)

  /** The browser's storage: `None` is a key that has never been written
      (or was removed). */
  datatype Store = Store(
    users: Option<seq<User>>,
    auth: Option<Session>,
    attendance: Option<seq<AttendanceRecord>>,
    timetable: Option<map<string, Lecture>>,
    lectureAttendance: Option<seq<LectureEvent>>)

  /** What the clock reads when a handler runs: the `Date.now()`-based id of a
      new entry, today's date and the formatted wall-clock time. */
  datatype Clock = Clock(id: string, today: Day, time: string)

  const EmptyStore: Store := Store(None, None, None, None, None)

  const StudentRole: string := "student"
  const TeacherRole: string := "teacher"
  const AdminRole: string := "admin"

  const PresentStatus: string := "present"

  /** `JSON.parse(localStorage.getItem("users") || "[]")` */
  function Users(s: Store): seq<User> {
    s.users.GetOr([])
  }

  /** `JSON.parse(localStorage.getItem("attendance") || "[]")` */
  function Records(s: Store): seq<AttendanceRecord> {
    s.attendance.GetOr([])
  }
}
