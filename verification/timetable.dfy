/** The admin's timetable screen: a map from `"<day>-<slot>"` keys to lecture
    assignments edited one cell at a time, an append-only log of lecture
    status events, the lookups that turn ids into names, and the analytics
    counts and per-teacher completion percentage.
 */
module Timetable {
  import opened Common
  import opened Model
  import opened SessionGate

  const ScheduledStatus: string := "scheduled"
  const CompletedStatus: string := "completed"
  const AbsentStatus: string := "absent"
  const CancelledStatus: string := "cancelled"
  const UnknownName: string := "Unknown"

  /** A teacher and a subject of the fixed catalogue the screen offers. */
  datatype Teacher = Teacher(id: string, name: string)
  datatype Subject = Subject(id: string, name: string, code: string)

  /** The two choices of the cell being edited. */
  datatype Selection = Selection(teacherId: string, subjectId: string)

  /** The screen's state: the timetable and the event log it shows, and the
      cell being edited with its current choices. */
  datatype Screen = Screen(
    timetable: map<string, Lecture>,
    log: seq<LectureEvent>,
    editing: Option<string>,
    selected: Option<Selection>)

  /** `${day}-${slot}` */
  function CellKey(day: string, slot: string): string {
    day + "-" + slot
  }

  datatype Opening = OpeningToLogin | Opened(user: SessionUser, screen: Screen)

  /** Entering the screen: only a live admin session gets in; a saved
      timetable and a saved log replace the built-in samples. */
  function Open(s: Store, sampleTimetable: map<string, Lecture>, sampleLog: seq<LectureEvent>): (o: Opening)
    ensures o.Opened? <==> s.auth.Some? && s.auth.value.status && s.auth.value.user.role == Some(AdminRole)
    ensures o.Opened? ==> o.user == s.auth.value.user
    ensures o.Opened? && s.timetable.Some? ==> o.screen.timetable == s.timetable.value
    ensures o.Opened? && s.timetable.None? ==> o.screen.timetable == sampleTimetable
    ensures o.Opened? && s.lectureAttendance.Some? ==> o.screen.log == s.lectureAttendance.value
    ensures o.Opened? && s.lectureAttendance.None? ==> o.screen.log == sampleLog
    ensures o.Opened? ==> o.screen.editing.None? && o.screen.selected.None?
  {
    match Enter(TimetablePage, s.auth)
    case ToLogin => OpeningToLogin
    case Admitted(user) =>
      Opened(user, Screen(s.timetable.GetOr(sampleTimetable), s.lectureAttendance.GetOr(sampleLog), None, None))
  }

  /** Clicking a cell: start editing it, pre-selecting its current assignment
      or two empty choices. */
  function HandleCellEdit(sc: Screen, day: string, slot: string): (r: Screen)
    ensures r.timetable == sc.timetable && r.log == sc.log
    ensures r.editing == Some(CellKey(day, slot))
    ensures CellKey(day, slot) in sc.timetable ==>
      r.selected == Some(Selection(sc.timetable[CellKey(day, slot)].teacherId, sc.timetable[CellKey(day, slot)].subjectId))
    ensures CellKey(day, slot) !in sc.timetable ==> r.selected == Some(Selection("", ""))
  {
    var key := CellKey(day, slot);
    var current := if key in sc.timetable then Selection(sc.timetable[key].teacherId, sc.timetable[key].subjectId)
                   else Selection("", "");
    sc.(editing := Some(key), selected := Some(current))
  }

  /** The two drop-downs of the cell being edited. */
  function ChooseTeacher(sc: Screen, teacherId: string): (r: Screen)
    ensures r.timetable == sc.timetable && r.log == sc.log && r.editing == sc.editing
    ensures r.selected.Some? && r.selected.value.teacherId == teacherId
    ensures sc.selected.Some? ==> r.selected.value.subjectId == sc.selected.value.subjectId
  {
    var current := sc.selected.GetOr(Selection("", ""));
    sc.(selected := Some(current.(teacherId := teacherId)))
  }

  function ChooseSubject(sc: Screen, subjectId: string): (r: Screen)
    ensures r.timetable == sc.timetable && r.log == sc.log && r.editing == sc.editing
    ensures r.selected.Some? && r.selected.value.subjectId == subjectId
    ensures sc.selected.Some? ==> r.selected.value.teacherId == sc.selected.value.teacherId
  {
    var current := sc.selected.GetOr(Selection("", ""));
    sc.(selected := Some(current.(subjectId := subjectId)))
  }

  /** `editingCell && selectedCell`: a non-empty key and a selection. */
  predicate CanSave(sc: Screen) {
    sc.editing.Some? && sc.editing.value != "" && sc.selected.Some?
  }

  datatype Saved = Saved(screen: Screen, store: Store)

  /** Saving the edited cell writes exactly that key, as "scheduled", to the
      screen and to storage, and closes the editor. Without an edited cell or
      a selection nothing happens. */
  function SaveCellEdit(sc: Screen, s: Store): (r: Saved)
    ensures !CanSave(sc) ==> r == Saved(sc, s)
    ensures CanSave(sc) ==>
      var key := sc.editing.value;
      && key in r.screen.timetable
      && r.screen.timetable[key] == Lecture(sc.selected.value.teacherId, sc.selected.value.subjectId, ScheduledStatus)
      && r.screen.timetable.Keys == sc.timetable.Keys + {key}
      && (forall k :: k in sc.timetable && k != key ==> r.screen.timetable[k] == sc.timetable[k])
      && r.store == s.(timetable := Some(r.screen.timetable))
      && r.screen.log == sc.log
      && r.screen.editing.None? && r.screen.selected.None?
  {
    if CanSave(sc) then
      var sel := sc.selected.value;
      var updated := sc.timetable[sc.editing.value := Lecture(sel.teacherId, sel.subjectId, ScheduledStatus)];
      Saved(Screen(updated, sc.log, None, None), s.(timetable := Some(updated)))
    else Saved(sc, s)
  }

  /** Cancelling closes the editor and touches nothing else. */
  function CancelCellEdit(sc: Screen): (r: Screen)
    ensures r.timetable == sc.timetable && r.log == sc.log
    ensures r.editing.None? && r.selected.None?
  {
    sc.(editing := None, selected := None)
  }

  /** Recording a lecture's status appends one event carrying the cell's
      teacher and subject, to the screen's log and to storage. A cell without
      a lecture changes nothing. */
  function UpdateLectureStatus(sc: Screen, s: Store, day: string, slot: string, status: string, clock: Clock): (r: Saved)
    ensures CellKey(day, slot) !in sc.timetable ==> r == Saved(sc, s)
    ensures CellKey(day, slot) in sc.timetable ==>
      var lecture := sc.timetable[CellKey(day, slot)];
      && r.screen == sc.(log := sc.log + [LectureEvent(clock.id, day, slot, lecture.teacherId, lecture.subjectId, status, clock.today)])
      && r.store == s.(lectureAttendance := Some(r.screen.log))
  {
    var key := CellKey(day, slot);
    if key in sc.timetable then
      var lecture := sc.timetable[key];
      var event := LectureEvent(clock.id, day, slot, lecture.teacherId, lecture.subjectId, status, clock.today);
      var log := sc.log + [event];
      Saved(sc.(log := log), s.(lectureAttendance := Some(log)))
    else Saved(sc, s)
  }

  function AtCell(day: string, slot: string): LectureEvent -> bool {
    (e: LectureEvent) => e.day == day && e.slot == slot
  }

  /** A cell's current status: that of the last event logged for its day and
      slot, whatever date it was logged on; "scheduled" when there is none. */
  function LectureStatus(log: seq<LectureEvent>, day: string, slot: string): (st: string)
    ensures (forall i :: 0 <= i < |log| ==> !(log[i].day == day && log[i].slot == slot)) ==> st == ScheduledStatus
    ensures (exists i :: 0 <= i < |log| && log[i].day == day && log[i].slot == slot) ==>
      exists i ::
        && 0 <= i < |log| && log[i].day == day && log[i].slot == slot
        && st == log[i].status
        && forall j :: i < j < |log| ==> !(log[j].day == day && log[j].slot == slot)
  {
    var here := Filter(log, AtCell(day, slot));
    FilterEmpty(log, AtCell(day, slot));
    if |here| == 0 then ScheduledStatus
    else
      FilterLast(log, AtCell(day, slot));
      here[|here| - 1].status
  }

  /** Right after recording a status for an assigned cell, that cell reports it. */
  lemma UpdateThenStatus(sc: Screen, s: Store, day: string, slot: string, status: string, clock: Clock)
    requires CellKey(day, slot) in sc.timetable
    ensures LectureStatus(UpdateLectureStatus(sc, s, day, slot, status, clock).screen.log, day, slot) == status
  {
    var log := UpdateLectureStatus(sc, s, day, slot, status, clock).screen.log;
    assert log[|log| - 1].day == day && log[|log| - 1].slot == slot;
  }

  /** Recording a status leaves the status of every other day/slot as it was. */
  lemma UpdateLeavesOtherCells(sc: Screen, s: Store, day: string, slot: string, status: string, clock: Clock,
                               day': string, slot': string)
    requires day' != day || slot' != slot
    ensures LectureStatus(UpdateLectureStatus(sc, s, day, slot, status, clock).screen.log, day', slot')
         == LectureStatus(sc.log, day', slot')
  {
    if CellKey(day, slot) in sc.timetable {
      var e := UpdateLectureStatus(sc, s, day, slot, status, clock).screen.log[|sc.log|];
      FilterAppend(sc.log, e, AtCell(day', slot'));
    }
  }

  /** `list.find(x => x.id === id)`, then its name, or "Unknown". */
  function TeacherName(teachers: seq<Teacher>, id: string): (name: string)
    ensures (forall i :: 0 <= i < |teachers| ==> teachers[i].id != id) ==> name == UnknownName
    ensures forall i ::
      (0 <= i < |teachers| && teachers[i].id == id && (forall j :: 0 <= j < i ==> teachers[j].id != id)) ==> name == teachers[i].name
  {
    match Find(teachers, (t: Teacher) => t.id == id)
    case Some(i) => teachers[i].name
    case None => UnknownName
  }

  function SubjectName(subjects: seq<Subject>, id: string): (name: string)
    ensures (forall i :: 0 <= i < |subjects| ==> subjects[i].id != id) ==> name == UnknownName
    ensures forall i ::
      (0 <= i < |subjects| && subjects[i].id == id && (forall j :: 0 <= j < i ==> subjects[j].id != id)) ==> name == subjects[i].name
  {
    match Find(subjects, (x: Subject) => x.id == id)
    case Some(i) => subjects[i].name
    case None => UnknownName
  }

  function SubjectCode(subjects: seq<Subject>, id: string): (code: string)
    ensures (forall i :: 0 <= i < |subjects| ==> subjects[i].id != id) ==> code == UnknownName
    ensures forall i ::
      (0 <= i < |subjects| && subjects[i].id == id && (forall j :: 0 <= j < i ==> subjects[j].id != id)) ==> code == subjects[i].code
  {
    match Find(subjects, (x: Subject) => x.id == id)
    case Some(i) => subjects[i].code
    case None => UnknownName
  }

  // ----- analytics -----

  function WithStatus(status: string): LectureEvent -> bool {
    (e: LectureEvent) => e.status == status
  }

  function OfTeacher(teacherId: string): LectureEvent -> bool {
    (e: LectureEvent) => e.teacherId == teacherId
  }

  function CompletedBy(teacherId: string): LectureEvent -> bool {
    (e: LectureEvent) => e.teacherId == teacherId && e.status == CompletedStatus
  }

  /** The four summary cards: all events, and those completed, absent, cancelled. */
  datatype Summary = Summary(total: nat, completed: nat, absent: nat, cancelled: nat)

  function Summarise(log: seq<LectureEvent>): (r: Summary)
    ensures r.total == |log|
    ensures r.completed == Count(log, WithStatus(CompletedStatus))
    ensures r.absent == Count(log, WithStatus(AbsentStatus))
    ensures r.cancelled == Count(log, WithStatus(CancelledStatus))
    ensures r.completed + r.absent + r.cancelled <= r.total
  {
    var completed := Count(log, WithStatus(CompletedStatus));
    var absent := Count(log, WithStatus(AbsentStatus));
    var cancelled := Count(log, WithStatus(CancelledStatus));
    StatusCountsBounded(log);
    Summary(|log|, completed, absent, cancelled)
  }

  /** Logging one more event adds one to the total and one to the card of the
      event's status, and leaves the other cards as they were. */
  lemma SummariseAppend(log: seq<LectureEvent>, e: LectureEvent)
    ensures var before, after := Summarise(log), Summarise(log + [e]);
      && after.total == before.total + 1
      && after.completed == before.completed + (if e.status == CompletedStatus then 1 else 0)
      && after.absent == before.absent + (if e.status == AbsentStatus then 1 else 0)
      && after.cancelled == before.cancelled + (if e.status == CancelledStatus then 1 else 0)
  {
    FilterAppend(log, e, WithStatus(CompletedStatus));
    FilterAppend(log, e, WithStatus(AbsentStatus));
    FilterAppend(log, e, WithStatus(CancelledStatus));
  }

  /** The three status counts never exceed the number of events, because an
      event has one status. */
  lemma {:induction false} StatusCountsBounded(log: seq<LectureEvent>)
    ensures Count(log, WithStatus(CompletedStatus)) + Count(log, WithStatus(AbsentStatus))
      + Count(log, WithStatus(CancelledStatus)) <= |log|
  {
    if |log| > 0 {
      StatusCountsBounded(log[..|log| - 1]);
    }
  }

  /** `Math.round(100 * completed / total)` on exact rationals: the nearest
      integer, halves rounded up. */
  function RoundedPercent(completed: nat, total: nat): (p: int)
    requires 0 < total && completed <= total
    ensures 0 <= p <= 100
    ensures 2 * (p * total - 100 * completed) <= total
    ensures 2 * (100 * completed - p * total) < total
    ensures completed == total ==> p == 100
    ensures completed == 0 ==> p == 0
  {
    var p := (200 * completed + total) / (2 * total);
    PercentBounds(completed, total, p);
    p
  }

  lemma MulMonotonic(a: int, b: int, c: int)
    requires a <= b && 0 <= c
    ensures a * c <= b * c
  {
  }

  /** The quotient `(200c + t) div 2t` lies in 0..100, and is exactly 100
      when `c == t` and 0 when `c == 0`. */
  lemma PercentBounds(completed: nat, total: nat, p: int)
    requires 0 < total && completed <= total
    requires p == (200 * completed + total) / (2 * total)
    ensures 0 <= p <= 100
    ensures p * (2 * total) <= 200 * completed + total < (p + 1) * (2 * total)
    ensures completed == total ==> p == 100
    ensures completed == 0 ==> p == 0
  {
    var d := 2 * total;
    var n := 200 * completed + total;
    assert p * d <= n < p * d + d;
    if p >= 101 {
      MulMonotonic(101, p, d);
      assert false;
    }
    if p < 0 {
      MulMonotonic(p, -1, d);
      assert false;
    }
    if completed == total && p <= 99 {
      MulMonotonic(p, 99, d);
      assert false;
    }
    if completed == 0 && p >= 1 {
      MulMonotonic(1, p, d);
      assert false;
    }
  }

  /** One row of the teacher-performance table. */
  datatype Performance = Performance(completed: nat, total: nat, percentage: int)

  /** A teacher's events, how many of them are "completed", and the rounded
      percentage, which is 0 for a teacher without events. */
  function TeacherPerformance(log: seq<LectureEvent>, teacherId: string): (r: Performance)
    ensures r.total == Count(log, OfTeacher(teacherId))
    ensures r.completed == Count(log, CompletedBy(teacherId))
    ensures r.completed <= r.total
    ensures 0 <= r.percentage <= 100
    ensures r.total == 0 ==> r.percentage == 0
    ensures r.total > 0 ==>
      && 2 * (r.percentage * r.total - 100 * r.completed) <= r.total
      && 2 * (100 * r.completed - r.percentage * r.total) < r.total
  {
    var mine := Filter(log, OfTeacher(teacherId));
    var completed := Count(mine, WithStatus(CompletedStatus));
    var total := |mine|;
    FilterFilter(log, OfTeacher(teacherId), WithStatus(CompletedStatus), CompletedBy(teacherId));
    if total > 0 then Performance(completed, total, RoundedPercent(completed, total))
    else Performance(completed, total, 0)
  }

  /** A teacher whose every event is "completed" scores 100, one with none
      completed scores 0. */
  lemma PerformanceExtremes(log: seq<LectureEvent>, teacherId: string)
    requires Count(log, OfTeacher(teacherId)) > 0
    ensures var r := TeacherPerformance(log, teacherId);
      (r.completed == r.total ==> r.percentage == 100) && (r.completed == 0 ==> r.percentage == 0)
  {
  }
}
