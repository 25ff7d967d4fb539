# trackAtt attendance demo: a Dafny model

trackAtt is a React single-page demo of face-recognition attendance. All of
its state lives in the browser's `localStorage` under five keys: `users`,
`auth`, `attendance`, `timetable` and `lectureAttendance`. Its logic sits in
the pages' event handlers and effects. This project models that logic as pure
functions over a typed store. The store is a record with one optional field
per key, and a missing key is `None`.

The model covers:

- **Session gate and logout** (`SessionGate`): every page's entry check and the
  logout that removes `auth`.
- **Login** (`Login`): first-match credential lookup, the password-free session
  it writes, and the redirect by role.
- **Attendance records** (`RecordStore`): the two commit paths, which disagree.
  The page with history skips a second record for the same user and day; the
  recognition page always appends. The module also holds the
  newest-first history query.
- **Attendance flows** (`MarkingFlow`, `RecognitionFlow`): explicit state
  machines. Each handles one event at a time (camera start, camera error,
  sampled frame, timer tick) and runs a countdown that ends in a commit. The face matcher is
  abstracted to the labels it returned for one frame. The attendance page
  with history is modelled twice: as its code runs, where two steps throw
  (see Findings), and as evidently intended.
- **Timetable screen** (`Timetable`): cell editing on `"day-slot"` keys, the
  append-only lecture-status log, the "current status" of a cell, name lookups,
  and the analytics counts and percentages.
- **Dashboards** (`Dashboards`): the admin's role and date counts, the teacher's
  present/absent figures and today's overview, and the home page's recent
  history.
- **Seeding** (`Seed`): the start-up initialiser, which writes demo users and
  records only when their keys are absent.
- **Task pages** (`Tasks`): the teacher's task form and the admin's random
  assignment.

`Common` holds the generic sequence tools: `Option`, `Filter`, `Count`, `Find`,
`Take`, and lemmas about them. `Model` holds the data model.

Calendar dates (`toISOString().split('T')[0]`) are modelled as whole day numbers
(`Day`), so "yesterday" is `today - 1`. Comparing two such dates with
`new Date(b.date) - new Date(a.date)` orders them like their day numbers. The
current time, timestamp ids, the camera, the face matcher, timers and
`Math.random()` become explicit inputs: a `Clock`, events, and a sequence of draws.

## Model

| member | source | states |
|---|---|---|
| SessionGate.Enter | src/pages/Protected.jsx:21-35 | A page admits the session user exactly when `auth` exists, its status is true and, on the admin and teacher pages, the role matches. Otherwise it sends the visitor to /login with no user set. |
| SessionGate.LogoutRoute | src/pages/Protected.jsx:167-170 | Logging out of the attendance page with history leads to "/", and only that page does. From the home page and the two dashboards it leads to /login. |
| SessionGate.Logout | src/pages/AdminDashboard.jsx:48-51 | Logout removes `auth` and leaves the other four keys as they were. |
| SessionGate.LogoutIdempotent | src/pages/AdminDashboard.jsx:48-51 | Logging out twice leaves the same storage as logging out once. |
| SessionGate.LogoutLocksEveryPage | src/pages/Home.jsx:8-27 | After a logout, every page's entry check redirects to /login. |
| SessionGate.UngatedPagesIgnoreRole | src/pages/Home.jsx:8-22 | The home and attendance pages check only `status`: changing the session's role never changes whether they admit it. |
| Login.RedirectFor | src/pages/Login.jsx:24-33 | A teacher goes to /teacher-dashboard and an admin to /admin-dashboard. Every other role, including a missing one, goes to "/". |
| Login.Submit | src/pages/Login.jsx:10-36 | Login succeeds exactly when some stored user has the given roll number and password, and the first such user is chosen. The written session has status true and only that user's roll number, name, id and role. The error line is cleared. On failure `auth` is untouched and the error is "Invalid roll number or password". |
| Login.PageAt | src/router.jsx:19-28 | The route a login produces names the page it lands on: /teacher-dashboard the teacher dashboard, /admin-dashboard the admin dashboard, and every other route the home page. |
| Login.LoginLandsOnAdmittingPage | src/pages/Login.jsx:18-33 | When some stored user matches, the login stores a live session with that roll number, and the page the redirect leads to admits it. |
| Login.NoUsersNoLogin | src/pages/Login.jsx:15-16 | With no `users` entry every login fails and storage is unchanged. |
| Login.SubmitForgetsPreviousError | src/pages/Login.jsx:12 | The outcome of a submission does not depend on the error left by an earlier one. |
| Login.StudentExample | src/pages/Login.jsx:16-26 | For the seeded credentials CS001/password123 with role student, login lands on "/" with the expected session. A wrong password gives the error message. |
| RecordStore.NewRecord | src/pages/Protected.jsx:78-86 | A new record copies the session user's id, name and roll number, carries the given id, date and time, and has status "present". |
| RecordStore.AddUnlessPresent | src/pages/Protected.jsx:71-88 | The records are unchanged when the user already has one for that day. Otherwise the new record is appended. |
| RecordStore.Append | src/pages/Attendance.jsx:103-105 | The list grows by exactly one: earlier records stay in place and in order, and the new record is last. There is no same-day check. |
| RecordStore.AddUnlessPresentKeepsOnePerDay | src/pages/Protected.jsx:73-88 | If the records held at most one per user and day before the commit, they still do after it. |
| RecordStore.AppendCanDuplicate | src/pages/Attendance.jsx:103-105 | The unconditional append breaks the one-per-user-per-day invariant whenever the user already has a record that day. |
| RecordStore.CommitOnce | src/pages/Protected.jsx:70-88 | Storage level of the deduplicating commit: nothing is written when a same-day record exists. Otherwise only `attendance` changes, by the appended record. |
| RecordStore.RecordAttendance | src/pages/Attendance.jsx:88-108 | Storage level of the unconditional commit: only `attendance` changes, and it becomes the old list plus the new record. |
| RecordStore.Insert | src/pages/Home.jsx:125 | Inserting into a newest-first list keeps it newest first and adds exactly that record. |
| RecordStore.SortNewestFirst | src/pages/Home.jsx:125 | The date sort yields a newest-first permutation of its input. |
| RecordStore.History | src/pages/Home.jsx:122-126 | The history holds only the user's records, newest first, and is as long as the smaller of their count and the limit. It is the head of a newest-first ordering of all the user's records, so no record left out is newer than one kept. When the user has no more records than the limit, it holds all of them. |
| RecordStore.HeadOfOrdering | src/pages/Home.jsx:125-126 | The first n records of a newest-first ordering extend to a newest-first ordering of the same records. |
| RecordStore.CommittedRecordListedOnce | src/pages/Protected.jsx:73-88 | A freshly committed record appears exactly once among the user's records and among that day's records. |
| RecordStore.FirstCommitExample | src/pages/Protected.jsx:71-87 | On empty storage, one commit gives one record for the day and one for the user. |
| MarkingFlow.Recognised | src/pages/Protected.jsx:137-139 | A frame marks attendance when it has at least one match and the first match's label is the user's roll number. |
| MarkingFlow.Step | src/pages/Protected.jsx:55-139 | The intended flow, with the camera stream attached and the record saved (see Findings). Start moves the flow to scanning, a camera error to failed, and Try Again to not-marked; none of the three touches the stream. A camera success stores the stream and changes nothing else. A tick outside "marked", or at counter 0, changes nothing in the flow. A frame marks the flow exactly when it is sampled and recognised; any other frame changes nothing. The counter is back at 5 whenever the status is not marked. A tick while marked decrements the counter. Storage changes only on the tick that takes the counter to 0, and that change is the deduplicating commit of a "present" record built from the session user. |
| MarkingFlow.CountdownCommits | src/pages/Protected.jsx:55-94 | Intended flow: once marked, n ticks bring the counter down by n. Storage is untouched until the tick that reaches 0, which commits. |
| MarkingFlow.FiveTicksCommit | src/pages/Protected.jsx:55-94 | Intended flow: from the moment of marking, four ticks leave storage alone and the fifth commits. |
| MarkingFlow.CommittedFlowIsIdle | src/pages/Protected.jsx:61-68 | Intended flow: once the counter is at 0, further ticks change nothing: the timer is cleared. |
| MarkingFlow.CommitRecordsSessionUser | src/pages/Protected.jsx:70-88 | Intended flow: the committing tick appends one record after the existing ones. That record is "present", dated today, and copies the session user's id, name and roll number. When the user already has a record that day, storage is unchanged. |
| MarkingFlow.EmptyFrameKeepsScanning | src/pages/Protected.jsx:96-139 | Intended flow: start, then a frame with no face, leaves the flow scanning. A camera error followed by Try Again returns it to not-marked. |
| MarkingFlow.IntendedFlowCommits | src/pages/Protected.jsx:96-139 | Intended flow: starting the camera, receiving the stream and a frame whose first match is the user marks attendance with the counter at 5. Five ticks then commit the record. |
| MarkingFlow.StepAsWritten | src/pages/Protected.jsx:55-108 | The page as its code runs. Storage never changes. A camera success while the video is not mounted fails the flow with the counter at 5. Every tick moves the counter as in the intended flow, but the last one writes nothing. All other events behave as in the intended flow. |
| MarkingFlow.AsWrittenStaysUnmarked | src/pages/Protected.jsx:96-139 | As written, from any state without a stream and not marked, no sequence of events stores a stream, reaches "marked" or writes to storage. |
| MarkingFlow.AsWrittenNeverMarks | src/pages/Protected.jsx:96-108 | As written, no sequence of events from the initial state reaches "marked" or writes to storage. Granting the camera right after starting it fails the flow. |
| MarkingFlow.AsWrittenNeverWrites | src/pages/Protected.jsx:55-94 | As written, no sequence of events from any state writes to storage. |
| MarkingFlow.AsWrittenCountdownWritesNothing | src/pages/Protected.jsx:55-94 | As written, five ticks from "marked" leave storage unchanged. The intended countdown changes it when the user has no record that day. |
| MarkingFlow.MarkingHistory | src/pages/Protected.jsx:333-337 | The page's history holds at most five records, all the user's own. They are the head of a newest-first ordering of all the user's records. |
| RecognitionFlow.Decide | src/pages/Attendance.jsx:150-160 | A frame gives SUCCESS exactly when it has at least one face result, and FAILED exactly when it has none. |
| RecognitionFlow.LabelDoesNotMatter | src/pages/Attendance.jsx:150-156 | Whether the first label equals the user's id never changes the decision. |
| RecognitionFlow.Step | src/pages/Attendance.jsx:59-165 | A frame with a face outside SUCCESS sets SUCCESS with the counter at 3, and a tick outside SUCCESS changes nothing. While SUCCESS, a tick above 1 decrements the counter, and a frame with a face changes nothing, because setting SUCCESS again is no change. The tick at 1 appends the record unconditionally, navigates to /attendance-success and ends the page. An empty frame resets the counter to 3. Nothing happens after the page is left. |
| RecognitionFlow.CountdownRecords | src/pages/Attendance.jsx:59-86 | From SUCCESS with counter c, the first c-1 ticks only count down. Tick c records once and navigates. |
| RecognitionFlow.ThreeTicksRecord | src/pages/Attendance.jsx:59-86 | From the first SUCCESS, two ticks leave storage alone. The third appends exactly the new record and navigates. |
| RecognitionFlow.LeftPageIsFinal | src/pages/Attendance.jsx:75-78 | After the page has navigated to the success page, no sequence of events changes the flow or storage. |
| RecognitionFlow.FacesDoNotDelayCountdown | src/pages/Attendance.jsx:59-165 | From SUCCESS with counter c, any mix of face frames and ticks counts down once per tick. Storage is untouched before the c-th tick. From that tick on, the page has left and storage holds exactly one appended record. |
| RecognitionFlow.NoFaceNoRecord | src/pages/Attendance.jsx:59-165 | Starting outside SUCCESS, no sequence of ticks and faceless frames reaches SUCCESS, leaves the page or writes to storage. |
| RecognitionFlow.RecordNamesSessionUser | src/pages/Attendance.jsx:88-105 | The recording tick appends one "present" record, dated today, with the session user's id, name and roll number. It does so even when a same-day record exists. |
| RecognitionFlow.EmptyFrameRestartsCountdown | src/pages/Attendance.jsx:85 | A faceless frame during the countdown turns the result to FAILED and puts the counter back to 3. |
| Timetable.Open | src/pages/TimetableManagement.jsx:16-41 | Only a live admin session opens the screen. A saved timetable and a saved log replace the built-in samples. |
| Timetable.HandleCellEdit | src/pages/TimetableManagement.jsx:107-111 | Clicking a cell starts editing its `day-slot` key. The selection is pre-filled with the cell's teacher and subject, or with two empty choices when the cell is unassigned. |
| Timetable.ChooseTeacher | src/pages/TimetableManagement.jsx:288-289 | The teacher drop-down sets the selected teacher and keeps the selected subject. |
| Timetable.ChooseSubject | src/pages/TimetableManagement.jsx:300-301 | The subject drop-down sets the selected subject and keeps the selected teacher. |
| Timetable.SaveCellEdit | src/pages/TimetableManagement.jsx:113-126 | Saving writes exactly the edited key, as the selection with status "scheduled", to the screen and to storage. Every other key is unchanged and the editor closes. Without an edited cell or a selection nothing happens. |
| Timetable.CancelCellEdit | src/pages/TimetableManagement.jsx:128-131 | Cancelling closes the editor and leaves the timetable and log unchanged. |
| Timetable.UpdateLectureStatus | src/pages/TimetableManagement.jsx:48-66 | For an assigned cell, exactly one event with the lecture's teacher and subject is appended to the log and to storage. An unassigned cell changes nothing. |
| Timetable.LectureStatus | src/pages/TimetableManagement.jsx:84-92 | A cell's status is "scheduled" when no event exists for its day and slot. Otherwise it is the status of the last such event, whatever its date. |
| Timetable.UpdateThenStatus | src/pages/TimetableManagement.jsx:48-92 | Right after a status is recorded for an assigned cell, that cell reports it. |
| Timetable.UpdateLeavesOtherCells | src/pages/TimetableManagement.jsx:48-92 | Recording a status leaves every other cell's status as it was. |
| Timetable.TeacherName | src/pages/TimetableManagement.jsx:69-72 | The name of the first teacher with that id, or "Unknown" when there is none. |
| Timetable.SubjectName | src/pages/TimetableManagement.jsx:74-77 | The name of the first subject with that id, or "Unknown" when there is none. |
| Timetable.SubjectCode | src/pages/TimetableManagement.jsx:79-82 | The code of the first subject with that id, or "Unknown" when there is none. |
| Timetable.Summarise | src/pages/TimetableManagement.jsx:459-521 | The total card counts every event. The completed, absent and cancelled cards count the events with that status, and together never exceed the total. |
| Timetable.SummariseAppend | src/pages/TimetableManagement.jsx:459-521 | One more logged event adds one to the total and one to the card of its status. The other cards stay as they were. |
| Timetable.StatusCountsBounded | src/pages/TimetableManagement.jsx:479-521 | Each event has one status, so the three status counts sum to at most the number of events. |
| Timetable.RoundedPercent | src/pages/TimetableManagement.jsx:539 | The rounded percentage lies in 0..100 and is the nearest integer to 100·completed/total, halves rounded up. It is exactly 100 when all lectures are completed and 0 when none are. |
| Timetable.PercentBounds | src/pages/TimetableManagement.jsx:539 | The integer quotient used for rounding is bracketed by the exact value and lies in 0..100. |
| Timetable.TeacherPerformance | src/pages/TimetableManagement.jsx:535-539 | A teacher's total counts their events and completed counts their completed ones. The percentage is 0 without events, otherwise the rounded share, always in 0..100. |
| Timetable.PerformanceExtremes | src/pages/TimetableManagement.jsx:536-539 | A teacher with events scores 100 when every event is completed and 0 when none is. |
| Dashboards.ComputeAdminStats | src/pages/AdminDashboard.jsx:26-45 | Students, teachers and admins are the numbers of users with exactly that role. Students + teachers + admins + users with another or no role add up to the total. Today's count is the number of records dated today, so it is at most the record total. Missing keys make every count 0. |
| Dashboards.RoleCountsPartition | src/pages/AdminDashboard.jsx:31-33 | Every user is counted under exactly one of student, teacher, admin or other. |
| Dashboards.OpenAdminDashboard | src/pages/AdminDashboard.jsx:11-46 | Only a live admin session sees the statistics. Otherwise the page redirects and computes nothing. |
| Dashboards.ComputeTeacherStats | src/pages/TeacherDashboard.jsx:24-36 | As written: present is the number of records dated today, from any user. Total counts only users with role student. Present + absent = total with no clamp, so absent is negative exactly when present exceeds total. |
| Dashboards.StudentCountAtMostUsers | src/pages/TeacherDashboard.jsx:29 | The student count never exceeds the number of users. |
| Dashboards.IntendedTeacherStats | src/pages/TeacherDashboard.jsx:28-36 | Corrected figures: a student is present when they have a record dated today and absent otherwise. Both figures lie in 0..total and add up to it. |
| Dashboards.PresentIffSomeStudentRecorded | src/pages/TeacherDashboard.jsx:28-36 | Corrected figures: present is 0 exactly when no student has a record dated today, and absent is then the whole student count. |
| Dashboards.PresentIdsRecorded | src/pages/TeacherDashboard.jsx:28-36 | Every present student's id appears on a record dated today. |
| Dashboards.RecordedIdsPresent | src/pages/TeacherDashboard.jsx:28-36 | When each of today's records names a student, every user id on today's records is a present student's id. |
| Dashboards.OneDayDistinctUsers | src/pages/Protected.jsx:73-88 | With at most one record per user and day, the records of a single day name pairwise different users. |
| Dashboards.IntendedMatchesComputed | src/pages/TeacherDashboard.jsx:28-36 | On well-formed storage the page's own figures equal the corrected ones. Well-formed means distinct user ids, at most one record per user and day, and only students' records dated today. |
| Dashboards.OpenTeacherDashboard | src/pages/TeacherDashboard.jsx:9-37 | Only a live teacher session gets in. It is shown the corrected figures, with the same student total as the page computes. |
| Dashboards.TodayOverview | src/pages/TeacherDashboard.jsx:186-191 | The overview lists at most five records, all dated today and taken from storage. |
| Dashboards.RecentHistory | src/pages/Home.jsx:122-126 | The home page's history holds at most three records, all the user's own. They are the head of a newest-first ordering of all the user's records. |
| Seed.SeedUsers | src/App.jsx:10-81 | Ten demo accounts, all with password "password123" and none with a role. |
| Seed.SeedAttendance | src/App.jsx:93-207 | Twelve demo records, all "present", dated between two days ago and today. |
| Seed.Initialize | src/App.jsx:6-211 | Users are seeded only when `users` is absent, and attendance only when `attendance` is absent. An existing value and every other key are untouched. |
| Seed.InitializeIdempotent | src/App.jsx:8-9 | Running the initialiser again, on any later day, changes nothing. |
| Seed.SeedUsersDistinct | src/App.jsx:10-81 | The ten demo users have pairwise distinct ids and roll numbers and carry no role. |
| Seed.SeedAttendanceOnePerDay | src/App.jsx:93-207 | No demo account has two demo records on the same day. |
| Seed.SeedAttendanceWellFormed | src/App.jsx:93-207 | The twelve demo records hold at most one per user and day. Each names a demo user by id, with that user's name and roll number, and has status "present". |
| Seed.SeedHasNoStudents | src/App.jsx:10-81 | No demo user has the student role. |
| Seed.DatedPrefix | src/App.jsx:93-122 | When the records dated a day precede all others, the day's query returns exactly that prefix. |
| Seed.SeedTodayCount | src/App.jsx:93-122 | Exactly three demo records are dated the seeding day. |
| Seed.SeededDashboardShowsNegativeAbsent | src/pages/TeacherDashboard.jsx:28-36 | On freshly seeded storage the page's absent figure is -3, while the corrected figure is 0. |
| Tasks.AddTask | src/pages/TeacherTasks.jsx:13-17 | A form without title or description changes nothing; media and time are not checked. Otherwise exactly one task with the form's four fields and the timestamp id is appended, earlier tasks are kept, and the form is reset to four empty strings. |
| Tasks.AddTaskTwiceAddsOnce | src/pages/TeacherTasks.jsx:13-17 | Pressing the button twice in a row adds the task once, because the cleared form is rejected. |
| Tasks.CreatedTasksComplete | src/pages/TeacherTasks.jsx:14-15 | However many forms are submitted, every task in the list has a title and a description. |
| Tasks.Pick | src/pages/AdminTasks.jsx:14 | A draw picks a task exactly when the list is non-empty. The task is the element at the index in [0, n) whose interval contains draw·n. |
| Tasks.ScaledDrawInRange | src/pages/AdminTasks.jsx:14 | A draw in [0, 1) scaled by n floors to an index in [0, n). |
| Tasks.IndexFraction | src/pages/AdminTasks.jsx:14 | For an index k below n, the fraction k/n is a valid draw and scales back to exactly k. |
| Tasks.EveryTaskReachable | src/pages/AdminTasks.jsx:14 | Every task can be chosen: the draw k/n picks task k. |
| Tasks.AssignRandomly | src/pages/AdminTasks.jsx:12-16 | There is exactly one assignment per student, in student order. Each holds the task the student's draw picks, which is an element of the task list, or none when the list is empty. |
| Tasks.Assign | src/pages/AdminTasks.jsx:12-18 | The new assignments replace the old ones, one per student. The student and task lists are not modified. |
| Tasks.AssignForgetsPrevious | src/pages/AdminTasks.jsx:17 | The previous assignments have no influence on the new ones. |
| Common.Filter | src/pages/Home.jsx:124 | `filter` keeps only elements satisfying the predicate, drawn from the input and never more than it holds. |
| Common.FilterMultiplicity | src/pages/Home.jsx:124 | A value is kept as many times as it occurs in the input when it satisfies the predicate, and never otherwise. |
| Common.FilterAppend | src/pages/Home.jsx:124 | Order: filtering the input with one more element at the end filters the old input, then adds that element if it satisfies the predicate. |
| Common.FilterConcat | src/pages/Home.jsx:124 | Order: filtering a concatenation is the concatenation of the filtered parts. |
| Common.FilterMembership | src/pages/Home.jsx:124 | An element is kept exactly when it occurs in the input and satisfies the predicate. |
| Common.Find | src/pages/Login.jsx:16 | `find` returns the first index whose element satisfies the predicate, or none exactly when no element does. |
| Common.CountCons | src/pages/Home.jsx:124 | Counting over a sequence with one more element in front adds one exactly when that element satisfies the predicate. |
| Common.Take | src/pages/Home.jsx:126 | `slice(0, n)` is the prefix of length min(len, n). |
| Common.DistinctKeysCount | src/pages/TeacherDashboard.jsx:28-36 | A list whose elements have pairwise different keys has exactly as many keys as elements. |
| Common.FilterKeepsDistinct | src/pages/TeacherDashboard.jsx:28-36 | Filtering a list with pairwise different keys keeps them pairwise different. |

## Left out

- Face detection, landmarks, descriptors and the face matcher are foreign code over float vectors. A sampled frame is modelled as the list of labels the matcher returned.
- The camera (`getUserMedia`), video and canvas binding, and track stopping are browser I/O. Camera success and failure are events.
- `setInterval` and React effect scheduling are left out; countdowns are explicit ticks. The success page's own redirect countdown is not part of this model.
- `localStorage` JSON (de)serialisation is left out: each key holds a typed value or is absent. A stored empty string, which the pages treat as absent, cannot be expressed.
- `Date.now()`, `toISOString`, `toLocaleTimeString` and `toTimeString` are inputs (a `Clock`). Timestamp ids are not claimed to be unique.
- An error thrown in an effect or promise handler is modelled only through its effect on the flow's state. React's unmounting of the page after the countdown's last tick throws is left out.
- Protected.jsx's model loading and labeled-descriptor set-up is left out. Frames reach the decision only while the page is scanning with a live stream, because the canvas the handler needs is mounted only then.
- Dashboards.TodayOverview: the order is not claimed. The page sorts by `new Date(time)` of a bare time of day, which is an invalid date, and the model keeps stored order.
- Timetable.RoundedPercent: computed exactly as `(200·completed + total) div (2·total)`, not with floating-point division and `Math.round`.
- Tasks.Pick: `Math.random() * tasks.length` is taken as an exact real product, without floating-point rounding.
- The built-in timetable samples, the teacher and subject lists and the sample lecture log come from a data file that is not part of this model. They are parameters.
- JSX rendering, styling, `getStatusColor`, the footer and the static student task list are presentation only.
- The route table in src/router.jsx:19-28 is not modelled. It has no routes for the teacher or admin dashboards, or for the timetable and task pages, and its `*` route navigates to "/". The model's pages are reached by name (`PageAt`) as if each route existed.
- RecordStore.SortNewestFirst: does not state that records of the same day keep their relative order, although JavaScript's sort is stable.

## Findings

| source | as written | input that shows it | evidently intended | confidence | as-written member | corrected member |
|---|---|---|---|---|---|---|
| src/pages/TeacherDashboard.jsx:28-36 | `absentToday` is the student count minus the number of today's records of any user, with no clamp | storage freshly seeded by src/App.jsx, with ten users without a role and three records dated today, gives absent = 0 - 3 = -3. Showing it on the page also needs a registered teacher account to log in and a /teacher-dashboard route, which src/router.jsx:19-28 does not define | present and absent count students with and without a record today, each between 0 and the student count | not executed; high | Seed.SeededDashboardShowsNegativeAbsent | Dashboards.IntendedTeacherStats |
| src/pages/Protected.jsx:96-108 | a camera success assigns `videoRef.current.srcObject` before storing the stream. The `<video>` is only rendered once a stream is stored (line 236), so the assignment throws and the `.catch` sets "failed" | press Mark Attendance and grant the camera | the stream is attached, the video plays, and sampled frames can mark attendance | not executed; high | MarkingFlow.AsWrittenNeverMarks | MarkingFlow.IntendedFlowCommits |
| src/pages/Protected.jsx:55-94 | when the counter reaches 0 the effect calls `videoRef.current.pause()`. The video is not rendered while "marked", so the call throws before the record is saved (lines 70-88) | reach "marked" with no record today, then wait five seconds | the last tick stops the camera and saves a "present" record unless one exists for today | not executed; medium | MarkingFlow.AsWrittenCountdownWritesNothing | MarkingFlow.FiveTicksCommit |
