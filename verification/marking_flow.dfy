/** The attendance page with history: a four-state flow
    (not_marked, scanning, marked, failed) whose "marked" state runs a
    five-second countdown that ends in the deduplicating commit.

    `Step` is the flow the page evidently intends, with the camera stream
    attached and the record saved on the countdown's last tick.
    `StepAsWritten` is the page's code as it runs: both of those steps go
    through a video element that is not mounted at that moment, and throw.
 */
module MarkingFlow {
  import opened Common
  import opened Model
  import opened RecordStore

  datatype MarkStatus = NotMarked | Scanning | Marked | Failed

  const CountdownStart: int := 5

  /** The page's state: the status, whether the camera stream has arrived,
      and the countdown. */
  datatype Marking = Marking(status: MarkStatus, streaming: bool, counter: int)

  const Initial: Marking := Marking(NotMarked, false, CountdownStart)

  /** What can happen on the page. `Frame` carries the labels the face matcher
      returned for one sampled frame, in detection order; `Tick` is one second
      of the countdown timer. */
  datatype MarkEvent =
    | StartCamera
    | CameraReady
    | CameraError
    | Frame(labels: seq<string>)
    | TryAgain
    | Tick

  /** A sampled frame marks attendance when some face was matched and the first
      match carries the session user's roll number. */
  predicate Recognised(labels: seq<string>, user: SessionUser) {
    |labels| > 0 && labels[0] == user.rollNumber
  }

  /** Frames only reach the decision while the canvas is mounted, which is
      while scanning with a live stream. */
  predicate Sampling(m: Marking) {
    m.status == Scanning && m.streaming
  }

  /** The counter effect run after every change: any status other than
      "marked" puts the counter back to its start value. */
  function Settle(m: Marking): Marking {
    if m.status != Marked then m.(counter := CountdownStart) else m
  }

  /** The state the flow keeps between events: counter within 0..5, and at its
      start value whenever the status is not "marked". */
  predicate Valid(m: Marking) {
    && 0 <= m.counter <= CountdownStart
    && (m.status != Marked ==> m.counter == CountdownStart)
  }

  datatype MarkStep = MarkStep(flow: Marking, store: Store)

  /** One event, followed by the counter effect. The storage only changes on
      the tick that brings the counter to 0. */
  function Step(m: Marking, s: Store, user: SessionUser, ev: MarkEvent, clock: Clock): (r: MarkStep)
    requires Valid(m)
    ensures Valid(r.flow)
    ensures ev == StartCamera ==> r.flow.status == Scanning
    ensures ev == CameraError ==> r.flow.status == Failed
    ensures ev == TryAgain ==> r.flow.status == NotMarked
    ensures r.flow.status == Marked && m.status != Marked ==>
      ev.Frame? && Sampling(m) && Recognised(ev.labels, user)
    ensures ev.Frame? && m.status == Marked ==> r.flow == m
    ensures ev.Frame? && Sampling(m) && Recognised(ev.labels, user) ==> r.flow == m.(status := Marked) && r.store == s
    ensures ev.Frame? && !(Sampling(m) && Recognised(ev.labels, user)) ==> r.flow == m && r.store == s
    ensures ev == CameraReady ==> r.flow == m.(streaming := true) && r.store == s
    ensures ev in {StartCamera, CameraError, TryAgain} ==> r.flow.streaming == m.streaming
    ensures ev == Tick && !(m.status == Marked && m.counter > 0) ==> r.flow == m
    ensures r.store != s ==> ev == Tick && m.status == Marked && m.counter == 1
    ensures ev == Tick && m.status == Marked && m.counter == 1 ==>
      r.store == CommitOnce(s, NewRecord(clock.id, user, clock.today, clock.time))
    ensures ev == Tick && m.status == Marked && m.counter > 0 ==> r.flow.counter == m.counter - 1
  {
    match ev
    case StartCamera => MarkStep(Settle(m.(status := Scanning)), s)
    case CameraReady => MarkStep(m.(streaming := true), s)
    case CameraError => MarkStep(Settle(m.(status := Failed)), s)
    case Frame(labels) =>
      if Sampling(m) && Recognised(labels, user) then MarkStep(m.(status := Marked), s)
      else MarkStep(m, s)
    case TryAgain => MarkStep(Settle(m.(status := NotMarked)), s)
    case Tick =>
      if m.status == Marked && m.counter > 0 then
        var next := m.(counter := m.counter - 1);
        if next.counter == 0 then
          MarkStep(next, CommitOnce(s, NewRecord(clock.id, user, clock.today, clock.time)))
        else MarkStep(next, s)
      else MarkStep(m, s)
  }

  /** The events in order, all read against the same clock. */
  function Run(m: Marking, s: Store, user: SessionUser, evs: seq<MarkEvent>, clock: Clock): MarkStep
    requires Valid(m)
    decreases |evs|
  {
    if |evs| == 0 then MarkStep(m, s)
    else
      var r := Step(m, s, user, evs[0], clock);
      Run(r.flow, r.store, user, evs[1..], clock)
  }

  /** `n` timer ticks in a row, all read against the same clock. */
  function Ticks(m: Marking, s: Store, user: SessionUser, clock: Clock, n: nat): MarkStep
    requires Valid(m)
    decreases n
  {
    if n == 0 then MarkStep(m, s)
    else
      var r := Step(m, s, user, Tick, clock);
      Ticks(r.flow, r.store, user, clock, n - 1)
  }

  /** Once marked, ticks count down from where the counter stands; the storage
      is untouched until the last one, which commits the record. */
  lemma {:induction false} CountdownCommits(m: Marking, s: Store, user: SessionUser, clock: Clock, n: nat)
    requires Valid(m) && m.status == Marked
    requires n <= m.counter
    ensures Ticks(m, s, user, clock, n).flow == m.(counter := m.counter - n)
    ensures n < m.counter ==> Ticks(m, s, user, clock, n).store == s
    ensures n == m.counter > 0 ==>
      Ticks(m, s, user, clock, n).store == CommitOnce(s, NewRecord(clock.id, user, clock.today, clock.time))
    decreases n
  {
    if n > 0 {
      var r := Step(m, s, user, Tick, clock);
      assert r.flow == m.(counter := m.counter - 1);
      CountdownCommits(r.flow, r.store, user, clock, n - 1);
    }
  }

  /** From the moment of marking, exactly five ticks commit, and no earlier tick does. */
  lemma FiveTicksCommit(s: Store, user: SessionUser, clock: Clock, streaming: bool)
    ensures Ticks(Marking(Marked, streaming, 5), s, user, clock, 4).store == s
    ensures Ticks(Marking(Marked, streaming, 5), s, user, clock, 5).store
      == CommitOnce(s, NewRecord(clock.id, user, clock.today, clock.time))
  {
    CountdownCommits(Marking(Marked, streaming, 5), s, user, clock, 4);
    CountdownCommits(Marking(Marked, streaming, 5), s, user, clock, 5);
  }

  /** After the commit the timer is gone: further ticks change nothing. */
  lemma {:induction false} CommittedFlowIsIdle(m: Marking, s: Store, user: SessionUser, clock: Clock, n: nat)
    requires Valid(m) && m.status == Marked && m.counter == 0
    ensures Ticks(m, s, user, clock, n) == MarkStep(m, s)
    decreases n
  {
    if n > 0 {
      CommittedFlowIsIdle(m, s, user, clock, n - 1);
    }
  }

  /** The committing tick writes a "present" record for the session user,
      dated the clock's day, after the existing ones; when that user already
      has a record that day, storage stays as it was. */
  lemma CommitRecordsSessionUser(m: Marking, s: Store, user: SessionUser, clock: Clock)
    requires Valid(m) && m.status == Marked && m.counter == 1
    ensures var r := Step(m, s, user, Tick, clock).store;
      HasRecordOn(Records(s), user.id, clock.today) ==> r == s
    ensures var r := Records(Step(m, s, user, Tick, clock).store);
      !HasRecordOn(Records(s), user.id, clock.today) ==>
        && |r| == |Records(s)| + 1
        && r[..|Records(s)|] == Records(s)
        && r[|Records(s)|].userId == user.id
        && r[|Records(s)|].userName == user.name
        && r[|Records(s)|].rollNumber == user.rollNumber
        && r[|Records(s)|].date == clock.today
        && r[|Records(s)|].status == PresentStatus
  {
  }

  /** The worked scenario: start, a frame with no face, then try again. The
      flow does not fail on an empty frame; it stays scanning. */
  lemma EmptyFrameKeepsScanning(s: Store, user: SessionUser, clock: Clock)
    ensures var a := Step(Initial, s, user, StartCamera, clock).flow;
      var b := Step(a, s, user, CameraReady, clock).flow;
      var c := Step(b, s, user, Frame([]), clock).flow;
      && a.status == Scanning
      && c.status == Scanning
      && Step(Step(c, s, user, CameraError, clock).flow, s, user, TryAgain, clock).flow.status == NotMarked
  {
  }

  /** The intended flow marks and commits: start the camera, receive the
      stream, show a frame whose first match is the user, then five ticks. */
  lemma IntendedFlowCommits(s: Store, user: SessionUser, clock: Clock)
    ensures var c := Run(Initial, s, user, [StartCamera, CameraReady, Frame([user.rollNumber])], clock);
      && c == MarkStep(Marking(Marked, true, CountdownStart), s)
      && Ticks(c.flow, s, user, clock, 5).store == CommitOnce(s, NewRecord(clock.id, user, clock.today, clock.time))
  {
    var evs := [StartCamera, CameraReady, Frame([user.rollNumber])];
    var a := Step(Initial, s, user, StartCamera, clock);
    var b := Step(a.flow, s, user, CameraReady, clock);
    var c := Step(b.flow, s, user, Frame([user.rollNumber]), clock);
    assert evs[1..][1..][1..] == [];
    calc {
      Run(Initial, s, user, evs, clock);
      Run(a.flow, a.store, user, evs[1..], clock);
      Run(b.flow, b.store, user, evs[1..][1..], clock);
      Run(c.flow, c.store, user, evs[1..][1..][1..], clock);
      c;
    }
    FiveTicksCommit(s, user, clock, true);
  }

  // ----- the flow as written -----

  /** One event as the page's code runs it. The `<video>` element is only
      mounted while scanning with a stored stream. A successful camera start
      assigns the stream to that element before storing the stream, so unless
      it is already mounted the assignment throws and the error handler fails
      the flow. The countdown's last tick pauses the same element, which is
      unmounted while "marked", so it throws before the record is saved.
      Every other event is handled as in `Step`. */
  function StepAsWritten(m: Marking, s: Store, user: SessionUser, ev: MarkEvent, clock: Clock): (r: MarkStep)
    requires Valid(m)
    ensures Valid(r.flow)
    ensures r.store == s
    ensures ev == CameraReady && !Sampling(m) ==> r.flow == m.(status := Failed, counter := CountdownStart)
    ensures ev.Tick? ==> r.flow == Step(m, s, user, ev, clock).flow
    ensures !(ev == CameraReady && !Sampling(m)) && !(ev.Tick? && m.status == Marked && m.counter == 1) ==>
      r == Step(m, s, user, ev, clock)
  {
    match ev
    case CameraReady =>
      if Sampling(m) then MarkStep(m, s) else MarkStep(Settle(m.(status := Failed)), s)
    case Tick =>
      if m.status == Marked && m.counter > 0 then MarkStep(m.(counter := m.counter - 1), s)
      else MarkStep(m, s)
    case _ => Step(m, s, user, ev, clock)
  }

  /** The events in order, as the page's code runs them. */
  function RunAsWritten(m: Marking, s: Store, user: SessionUser, evs: seq<MarkEvent>, clock: Clock): MarkStep
    requires Valid(m)
    decreases |evs|
  {
    if |evs| == 0 then MarkStep(m, s)
    else
      var r := StepAsWritten(m, s, user, evs[0], clock);
      RunAsWritten(r.flow, r.store, user, evs[1..], clock)
  }

  /** Without a stored stream nothing is sampled, and as written no stream is
      ever stored: the flow never reaches "marked" and storage stays as it was. */
  lemma {:induction false} AsWrittenStaysUnmarked(m: Marking, s: Store, user: SessionUser, evs: seq<MarkEvent>, clock: Clock)
    requires Valid(m) && !m.streaming && m.status != Marked
    ensures var r := RunAsWritten(m, s, user, evs, clock);
      !r.flow.streaming && r.flow.status != Marked && r.store == s
    decreases |evs|
  {
    if |evs| > 0 {
      var r := StepAsWritten(m, s, user, evs[0], clock);
      AsWrittenStaysUnmarked(r.flow, r.store, user, evs[1..], clock);
    }
  }

  /** As written, attendance is never marked on this page: from the initial
      state no sequence of events reaches "marked" or writes to storage, and
      granting the camera fails the flow at once. */
  lemma AsWrittenNeverMarks(s: Store, user: SessionUser, evs: seq<MarkEvent>, clock: Clock)
    ensures RunAsWritten(Initial, s, user, evs, clock).flow.status != Marked
    ensures RunAsWritten(Initial, s, user, evs, clock).store == s
    ensures RunAsWritten(Initial, s, user, [StartCamera, CameraReady], clock).flow.status == Failed
  {
    AsWrittenStaysUnmarked(Initial, s, user, evs, clock);
    var a := StepAsWritten(Initial, s, user, StartCamera, clock);
    assert [StartCamera, CameraReady][1..][1..] == [];
    assert RunAsWritten(Initial, s, user, [StartCamera, CameraReady], clock)
      == StepAsWritten(a.flow, s, user, CameraReady, clock);
  }

  /** As written, the countdown saves nothing: from "marked", five ticks leave
      storage as it was, while the intended countdown adds the user's record
      when they have none that day. */
  lemma AsWrittenCountdownWritesNothing(s: Store, user: SessionUser, clock: Clock)
    requires !HasRecordOn(Records(s), user.id, clock.today)
    ensures RunAsWritten(Marking(Marked, true, CountdownStart), s, user, [Tick, Tick, Tick, Tick, Tick], clock).store == s
    ensures Ticks(Marking(Marked, true, CountdownStart), s, user, clock, 5).store != s
  {
    AsWrittenNeverWrites(Marking(Marked, true, CountdownStart), s, user, [Tick, Tick, Tick, Tick, Tick], clock);
    FiveTicksCommit(s, user, clock, true);
    var rec := NewRecord(clock.id, user, clock.today, clock.time);
    assert Records(CommitOnce(s, rec)) == Records(s) + [rec];
  }

  /** As written, no sequence of events from any state writes to storage. */
  lemma {:induction false} AsWrittenNeverWrites(m: Marking, s: Store, user: SessionUser, evs: seq<MarkEvent>, clock: Clock)
    requires Valid(m)
    ensures RunAsWritten(m, s, user, evs, clock).store == s
    decreases |evs|
  {
    if |evs| > 0 {
      var r := StepAsWritten(m, s, user, evs[0], clock);
      AsWrittenNeverWrites(r.flow, r.store, user, evs[1..], clock);
    }
  }

  /** The attendance page's history: the session user's five newest records,
      the first five of a newest-first ordering of all of them. */
  function MarkingHistory(s: Store, user: SessionUser): (r: seq<AttendanceRecord>)
    ensures |r| <= 5
    ensures forall i :: 0 <= i < |r| ==> r[i].userId == user.id
    ensures NewestFirst(r)
    ensures multiset(r) <= multiset(Records(s))
    ensures |r| == Min(Count(Records(s), OfUser(user.id)), 5)
    ensures exists rest :: NewestFirst(r + rest) && multiset(r + rest) == multiset(Filter(Records(s), OfUser(user.id)))
  {
    History(Records(s), user.id, 5)
  }
}
