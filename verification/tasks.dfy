/** The two task pages: the teacher's task form, which validates and appends,
    and the admin's random assignment of one task to every student.
 */
module Tasks {
  import opened Common

  // ----- teacher task form -----

  datatype TaskForm = TaskForm(title: string, description: string, media: string, time: string)

  const EmptyForm: TaskForm := TaskForm("", "", "", "")

  /** A created task: the form's four fields and the creation timestamp as id. */
  datatype Task = Task(title: string, description: string, media: string, time: string, id: int)

  /** The page's state: the tasks created so far and the form being filled in. */
  datatype TaskBoard = TaskBoard(tasks: seq<Task>, form: TaskForm)

  const EmptyBoard: TaskBoard := TaskBoard([], EmptyForm)

  /** A form is accepted when its title and description are filled in; media
      and time may be empty. */
  predicate Complete(form: TaskForm) {
    form.title != "" && form.description != ""
  }

  /** Pressing "Add Task" at time `now` (milliseconds). An incomplete form
      changes nothing; a complete one becomes a new task at the end of the
      list, and the form is cleared. */
  function AddTask(b: TaskBoard, now: int): (r: TaskBoard)
    ensures !Complete(b.form) ==> r == b
    ensures Complete(b.form) ==>
      && |r.tasks| == |b.tasks| + 1
      && r.tasks[..|b.tasks|] == b.tasks
      && r.form == EmptyForm
    ensures Complete(b.form) ==>
      var t := r.tasks[|b.tasks|];
      && t.title == b.form.title && t.description == b.form.description
      && t.media == b.form.media && t.time == b.form.time
      && t.id == now
  {
    if !Complete(b.form) then b
    else
      var f := b.form;
      TaskBoard(b.tasks + [Task(f.title, f.description, f.media, f.time, now)], EmptyForm)
  }

  /** Pressing the button twice adds the task once: the cleared form is
      rejected the second time. */
  lemma AddTaskTwiceAddsOnce(b: TaskBoard, now: int, later: int)
    ensures AddTask(AddTask(b, now), later) == AddTask(b, now)
  {
  }

  /** Every created task has a title and a description. */
  lemma {:induction false} CreatedTasksComplete(b: TaskBoard, forms: seq<TaskForm>, stamps: seq<int>)
    requires |forms| == |stamps|
    requires forall i :: 0 <= i < |b.tasks| ==> b.tasks[i].title != "" && b.tasks[i].description != ""
    ensures var r := Fill(b, forms, stamps);
      forall i :: 0 <= i < |r.tasks| ==> r.tasks[i].title != "" && r.tasks[i].description != ""
    decreases |forms|
  {
    if |forms| > 0 {
      var next := AddTask(b.(form := forms[0]), stamps[0]);
      assert forall i :: 0 <= i < |next.tasks| ==> next.tasks[i].title != "" && next.tasks[i].description != "" by {
        if Complete(forms[0]) {
          assert next.tasks == b.tasks + [next.tasks[|b.tasks|]];
        }
      }
      CreatedTasksComplete(next, forms[1..], stamps[1..]);
      var r := Fill(b, forms, stamps);
      assert r == Fill(next, forms[1..], stamps[1..]);
      assert forall i :: 0 <= i < |r.tasks| ==> r.tasks[i].title != "" && r.tasks[i].description != "";
    }
  }

  /** Filling in `forms[i]` and pressing the button at `stamps[i]`, in order. */
  function Fill(b: TaskBoard, forms: seq<TaskForm>, stamps: seq<int>): TaskBoard
    requires |forms| == |stamps|
    decreases |forms|
  {
    if |forms| == 0 then b
    else Fill(AddTask(b.(form := forms[0]), stamps[0]), forms[1..], stamps[1..])
  }

  // ----- admin random assignment -----

  /** A task of the admin page's fixed list (these carry no media). */
  datatype AdminTask = AdminTask(id: int, title: string, description: string, time: string)

  /** One student's assignment; `None` is the `undefined` an empty task list gives. */
  datatype Assignment = Assignment(student: string, task: Option<AdminTask>)

  /** The page's state: the fixed lists and the current assignments. */
  datatype AssignmentPage = AssignmentPage(students: seq<string>, tasks: seq<AdminTask>, assignments: seq<Assignment>)

  /** A random draw, as returned by `Math.random()`. */
  predicate Draw(x: real) {
    0.0 <= x < 1.0
  }

  /** The task a draw picks: index `floor(draw * |tasks|)`. */
  function Pick(tasks: seq<AdminTask>, draw: real): (r: Option<AdminTask>)
    requires Draw(draw)
    ensures r.Some? <==> |tasks| > 0
    ensures r.Some? ==> exists k :: (0 <= k < |tasks| && tasks[k] == r.value
      && k as real <= draw * |tasks| as real < (k + 1) as real)
  {
    if |tasks| == 0 then None
    else
      var k := (draw * |tasks| as real).Floor;
      ScaledDrawInRange(draw, |tasks|);
      Some(tasks[k])
  }

  /** A draw in [0, 1) scaled by `n` lands on an index in [0, n). */
  lemma ScaledDrawInRange(draw: real, n: nat)
    requires Draw(draw) && n > 0
    ensures 0 <= (draw * n as real).Floor < n
  {
    assert draw * n as real < 1.0 * n as real;
  }

  /** The fraction `k / n` of an index below `n` is a draw, and scaling it
      back by `n` gives `k` again. */
  lemma IndexFraction(k: nat, n: nat)
    requires k < n
    ensures Draw(k as real / n as real)
    ensures (k as real / n as real) * n as real == k as real
  {
    var d := k as real / n as real;
    assert d * n as real == k as real;
    if d >= 1.0 {
      assert false;
    }
  }

  /** Every task can come up: the draw `k / |tasks|` picks task `k`. */
  lemma EveryTaskReachable(tasks: seq<AdminTask>, k: nat)
    requires k < |tasks|
    ensures Draw(k as real / |tasks| as real)
    ensures Pick(tasks, k as real / |tasks| as real) == Some(tasks[k])
  {
    IndexFraction(k, |tasks|);
    assert (k as real).Floor == k;
  }

  /** Pressing "Assign Randomly" with one draw per student: each student, in
      list order, gets the task their draw picks. */
  function AssignRandomly(students: seq<string>, tasks: seq<AdminTask>, draws: seq<real>): (r: seq<Assignment>)
    requires |draws| == |students|
    requires forall i :: 0 <= i < |draws| ==> Draw(draws[i])
    ensures |r| == |students|
    ensures forall i :: 0 <= i < |r| ==> r[i].student == students[i] && r[i].task == Pick(tasks, draws[i])
    ensures |tasks| > 0 ==> forall i :: 0 <= i < |r| ==>
      r[i].task.Some? && exists k :: 0 <= k < |tasks| && tasks[k] == r[i].task.value
    ensures |tasks| == 0 ==> forall i :: 0 <= i < |r| ==> r[i].task.None?
    decreases |students|
  {
    if |students| == 0 then []
    else [Assignment(students[0], Pick(tasks, draws[0]))] + AssignRandomly(students[1..], tasks, draws[1..])
  }

  /** The page after assigning: the new assignments replace the old ones, and
      the student and task lists stay as they were. */
  function Assign(p: AssignmentPage, draws: seq<real>): (r: AssignmentPage)
    requires |draws| == |p.students|
    requires forall i :: 0 <= i < |draws| ==> Draw(draws[i])
    ensures r.students == p.students && r.tasks == p.tasks
    ensures |r.assignments| == |p.students|
    ensures forall i :: 0 <= i < |r.assignments| ==> r.assignments[i].student == p.students[i]
  {
    p.(assignments := AssignRandomly(p.students, p.tasks, draws))
  }

  /** The previous assignments have no influence on the new ones. */
  lemma AssignForgetsPrevious(p: AssignmentPage, previous: seq<Assignment>, draws: seq<real>)
    requires |draws| == |p.students|
    requires forall i :: 0 <= i < |draws| ==> Draw(draws[i])
    ensures Assign(p, draws) == Assign(p.(assignments := previous), draws)
  {
  }
}
