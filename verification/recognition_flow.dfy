/** The face-recognition attendance page: every sampled frame sets the result
    to SUCCESS or FAILED; while SUCCESS a three-second countdown runs, and its
    last tick appends a record unconditionally and leaves for the success page.
 */
module RecognitionFlow {
  import opened Common
  import opened Model
  import opened RecordStore
  import opened SessionGate

  datatype Recognition = Pending | Success | Failed

  const CountdownStart: int := 3

  /** The page's state: the last decision, the countdown, and whether the
      page has already navigated away (after which nothing on it runs). */
  datatype Recognising = Recognising(result: Recognition, counter: int, left: bool)

  const Initial: Recognising := Recognising(Pending, CountdownStart, false)

  /** `Frame` carries the labels the face matcher returned for one sampled frame;
      `Tick` is one second of the countdown timer. */
  datatype RecognitionEvent = Frame(labels: seq<string>) | Tick

  /** The decision for one frame. A first label equal to the user's id and any
      other detected face both give SUCCESS; only an empty frame gives FAILED. */
  function Decide(labels: seq<string>, userId: string): (r: Recognition)
    ensures r == Success <==> |labels| > 0
    ensures r == Failed <==> |labels| == 0
  {
    if |labels| > 0 && userId == labels[0] then Success
    else if |labels| > 0 then Success
    else Failed
  }

  /** The counter effect run after every change: any result other than
      SUCCESS puts the counter back to its start value. */
  function Settle(f: Recognising): Recognising {
    if f.result != Success then f.(counter := CountdownStart) else f
  }

  /** The states the flow keeps while the page is shown. */
  predicate Valid(f: Recognising) {
    && (!f.left ==> 1 <= f.counter <= CountdownStart)
    && (f.left ==> f.counter == 0 && f.result == Success)
    && (f.result != Success ==> f.counter == CountdownStart)
  }

  datatype RecognitionStep = RecognitionStep(flow: Recognising, store: Store, navigate: Option<string>)

  /** One event, followed by the counter effect. */
  function Step(f: Recognising, s: Store, user: SessionUser, ev: RecognitionEvent, clock: Clock): (r: RecognitionStep)
    requires Valid(f)
    ensures Valid(r.flow)
    ensures f.left ==> r == RecognitionStep(f, s, None)
    ensures !f.left && ev.Frame? ==> r.flow.result == Decide(ev.labels, user.id) && r.store == s
    ensures !f.left && ev.Frame? && |ev.labels| == 0 ==> r.flow.counter == CountdownStart
    ensures !f.left && ev.Frame? && |ev.labels| > 0 && f.result == Success ==> r.flow == f
    ensures !f.left && ev.Frame? && |ev.labels| > 0 && f.result != Success ==>
      r.flow == Recognising(Success, CountdownStart, false)
    ensures !f.left && ev == Tick && f.result != Success ==> r == RecognitionStep(f, s, None)
    ensures r.store != s ==> !f.left && ev == Tick && f.result == Success && f.counter == 1
    ensures r.navigate.Some? <==> !f.left && ev == Tick && f.result == Success && f.counter == 1
    ensures r.navigate.Some? ==>
      && r.navigate.value == AttendanceSuccessRoute
      && r.flow.left
      && r.store == RecordAttendance(s, NewRecord(clock.id, user, clock.today, clock.time))
    ensures !f.left && ev == Tick && f.result == Success && f.counter > 1 ==> r.flow.counter == f.counter - 1
  {
    if f.left then RecognitionStep(f, s, None)
    else
      match ev
      case Frame(labels) => RecognitionStep(Settle(f.(result := Decide(labels, user.id))), s, None)
      case Tick =>
        if f.result != Success then RecognitionStep(f, s, None)
        else if f.counter <= 1 then
          RecognitionStep(
            f.(counter := 0, left := true),
            RecordAttendance(s, NewRecord(clock.id, user, clock.today, clock.time)),
            Some(AttendanceSuccessRoute))
        else RecognitionStep(f.(counter := f.counter - 1), s, None)
  }

  /** Whether the face matched the user's own label makes no difference. */
  lemma LabelDoesNotMatter(labels: seq<string>, userId: string, other: string)
    ensures Decide(labels, userId) == Decide(labels, other)
  {
  }

  /** Up to `n` timer ticks in a row, all read against the same clock, stopping
      early at the tick that navigates away. */
  function Ticks(f: Recognising, s: Store, user: SessionUser, clock: Clock, n: nat): RecognitionStep
    requires Valid(f)
    decreases n
  {
    if n == 0 then RecognitionStep(f, s, None)
    else
      var r := Step(f, s, user, Tick, clock);
      if n == 1 || r.navigate.Some? then r else Ticks(r.flow, r.store, user, clock, n - 1)
  }

  /** While SUCCESS holds, the countdown's ticks leave the storage alone until
      the one at 1, which appends exactly one record and navigates away. */
  lemma {:induction false} CountdownRecords(f: Recognising, s: Store, user: SessionUser, clock: Clock, n: nat)
    requires Valid(f) && !f.left && f.result == Success
    requires 0 < n <= f.counter
    ensures n < f.counter ==> Ticks(f, s, user, clock, n) == RecognitionStep(f.(counter := f.counter - n), s, None)
    ensures n == f.counter ==> Ticks(f, s, user, clock, n) == RecognitionStep(
      f.(counter := 0, left := true),
      RecordAttendance(s, NewRecord(clock.id, user, clock.today, clock.time)),
      Some(AttendanceSuccessRoute))
    decreases n
  {
    if n > 1 {
      var r := Step(f, s, user, Tick, clock);
      assert r == RecognitionStep(f.(counter := f.counter - 1), s, None);
      CountdownRecords(r.flow, s, user, clock, n - 1);
    }
  }

  /** From the first SUCCESS, the third tick records and navigates, and the
      storage then holds one record more than before. */
  lemma ThreeTicksRecord(s: Store, user: SessionUser, clock: Clock)
    ensures Ticks(Recognising(Success, 3, false), s, user, clock, 2).store == s
    ensures var r := Ticks(Recognising(Success, 3, false), s, user, clock, 3);
      && r.navigate == Some(AttendanceSuccessRoute)
      && |Records(r.store)| == |Records(s)| + 1
      && Records(r.store)[|Records(s)|] == NewRecord(clock.id, user, clock.today, clock.time)
  {
    CountdownRecords(Recognising(Success, 3, false), s, user, clock, 2);
    CountdownRecords(Recognising(Success, 3, false), s, user, clock, 3);
  }

  function IsTick(): RecognitionEvent -> bool {
    (ev: RecognitionEvent) => ev == Tick
  }

  /** A timer tick, or a frame in which some face was detected. */
  predicate FaceOrTick(ev: RecognitionEvent) {
    ev == Tick || (ev.Frame? && |ev.labels| > 0)
  }

  /** The events in order, all read against the same clock. */
  function Run(f: Recognising, s: Store, user: SessionUser, evs: seq<RecognitionEvent>, clock: Clock): RecognitionStep
    requires Valid(f)
    decreases |evs|
  {
    if |evs| == 0 then RecognitionStep(f, s, None)
    else
      var r := Step(f, s, user, evs[0], clock);
      Run(r.flow, r.store, user, evs[1..], clock)
  }

  /** Once the page has navigated away, no further event changes anything. */
  lemma {:induction false} LeftPageIsFinal(f: Recognising, s: Store, user: SessionUser, evs: seq<RecognitionEvent>, clock: Clock)
    requires Valid(f) && f.left
    ensures Run(f, s, user, evs, clock) == RecognitionStep(f, s, None)
    decreases |evs|
  {
    if |evs| > 0 {
      LeftPageIsFinal(f, s, user, evs[1..], clock);
    }
  }

  /** Frames showing a face do not disturb the countdown: from SUCCESS with
      counter c, any mix of such frames and ticks counts down once per tick,
      leaves storage alone before the c-th tick, and from that tick on holds
      exactly one appended record with the page left. */
  lemma {:induction false} FacesDoNotDelayCountdown(f: Recognising, s: Store, user: SessionUser, evs: seq<RecognitionEvent>, clock: Clock)
    requires Valid(f) && !f.left && f.result == Success
    requires forall i :: 0 <= i < |evs| ==> FaceOrTick(evs[i])
    ensures var ticks, r := Count(evs, IsTick()), Run(f, s, user, evs, clock);
      && (ticks < f.counter ==> r.flow == f.(counter := f.counter - ticks) && r.store == s)
      && (ticks >= f.counter ==>
            r.flow.left && r.store == RecordAttendance(s, NewRecord(clock.id, user, clock.today, clock.time)))
    decreases |evs|
  {
    if |evs| > 0 {
      var r := Step(f, s, user, evs[0], clock);
      CountCons(evs[0], evs[1..], IsTick());
      assert [evs[0]] + evs[1..] == evs;
      if evs[0] == Tick && f.counter == 1 {
        LeftPageIsFinal(r.flow, r.store, user, evs[1..], clock);
      } else {
        FacesDoNotDelayCountdown(r.flow, r.store, user, evs[1..], clock);
      }
    }
  }

  /** Without a frame showing a face the result never becomes SUCCESS, so no
      run that starts outside SUCCESS records anything or leaves the page. */
  lemma {:induction false} NoFaceNoRecord(f: Recognising, s: Store, user: SessionUser, evs: seq<RecognitionEvent>, clock: Clock)
    requires Valid(f) && !f.left && f.result != Success
    requires forall i :: 0 <= i < |evs| ==> !(evs[i].Frame? && |evs[i].labels| > 0)
    ensures var r := Run(f, s, user, evs, clock);
      r.store == s && !r.flow.left && r.flow.result != Success
    decreases |evs|
  {
    if |evs| > 0 {
      var r := Step(f, s, user, evs[0], clock);
      NoFaceNoRecord(r.flow, r.store, user, evs[1..], clock);
    }
  }

  /** The recording tick appends a "present" record for the session user,
      dated the clock's day, even when that user already has one that day. */
  lemma RecordNamesSessionUser(f: Recognising, s: Store, user: SessionUser, clock: Clock)
    requires Valid(f) && !f.left && f.result == Success && f.counter == 1
    ensures var r := Records(Step(f, s, user, Tick, clock).store);
      && |r| == |Records(s)| + 1
      && r[..|Records(s)|] == Records(s)
      && r[|Records(s)|].userId == user.id
      && r[|Records(s)|].userName == user.name
      && r[|Records(s)|].rollNumber == user.rollNumber
      && r[|Records(s)|].date == clock.today
      && r[|Records(s)|].status == PresentStatus
  {
  }

  /** A frame without faces during the countdown cancels it: the result turns
      FAILED and the counter is back at 3. */
  lemma EmptyFrameRestartsCountdown(f: Recognising, s: Store, user: SessionUser, clock: Clock)
    requires Valid(f) && !f.left && f.result == Success
    ensures Step(f, s, user, Frame([]), clock).flow == Recognising(Failed, CountdownStart, false)
  {
  }
}
